/** The course-block scanner, time-slot extractor and draft assembler of the
    teaching-load parser: one pass over the normalised lines with one line
    of lookahead. */
module Scanner {
  import opened Wrappers
  import opened Strings
  import opened Sequences
  import opened Days
  import opened Sections

  /** The en dash (U+2013) that separates the two times of a slot. */
  const EnDash: char := '\U{2013}'

  // ---------------------------------------------------------------- headers

  /** The text `/^(IS|IT)\s*\d{3}/` matches: a program prefix, optional
      whitespace and three digits. */
  predicate IsHeaderCode(c: string) {
    && |c| >= 5
    && (c[..2] == "IS" || c[..2] == "IT")
    && (forall k :: 2 <= k < |c| - 3 ==> IsSpace(c[k]))
    && (forall k :: |c| - 3 <= k < |c| ==> IsDigit(c[k]))
  }

  /** `line.match(/^(IS|IT)\s*\d{3}/)`: the course code a header line starts
      with, and `None` exactly when no prefix of the line is a code. */
  function MatchHeader(line: string): (r: Option<string>)
    ensures r.Some? ==> IsHeaderCode(r.value) && r.value <= line
    ensures r.None? <==> forall n :: 0 <= n <= |line| ==> !IsHeaderCode(line[..n])
  {
    if |line| >= 2 && (line[..2] == "IS" || line[..2] == "IT") then
      var q := SkipSpaces(line, 2);
      if q + 3 <= |line| && IsDigit(line[q]) && IsDigit(line[q + 1]) && IsDigit(line[q + 2]) then
        assert IsHeaderCode(line[..q + 3]);
        Some(line[..q + 3])
      else
        assert forall n :: 0 <= n <= |line| ==> !IsHeaderCode(line[..n]) by {
          forall n | 0 <= n <= |line| ensures !IsHeaderCode(line[..n]) {
            if 5 <= n && (forall k :: 2 <= k < n - 3 ==> IsSpace(line[k])) && IsDigit(line[n - 3]) {
              SkipToDigit(line, n - 3);
            }
          }
        }
        None
    else
      assert forall n :: 0 <= n <= |line| ==> !IsHeaderCode(line[..n]) by {
        forall n | 0 <= n <= |line| ensures !IsHeaderCode(line[..n]) {
          if 2 <= n && 2 <= |line| {
            assert line[..n][..2] == line[..2];
          }
        }
      }
      None
  }

  /** Skipping the whitespace after the prefix stops at the first digit. */
  lemma SkipToDigit(line: string, d: nat)
    requires 2 <= d < |line| && IsDigit(line[d])
    requires forall k :: 2 <= k < d ==> IsSpace(line[k])
    ensures SkipSpaces(line, 2) == d
  {
  }

  // ---------------------------------------------------------- course lines

  /** `courseLine.split("(")[0].trim()`: the course title. */
  function CourseTitle(courseLine: string): string {
    Trim(Split(courseLine, '(')[0])
  }

  /** `\(([^)]+)\)` anchored at `p`: a `(`, then everything up to the next
      `)`, which must be at least one character. */
  function ParenAt(s: string, p: nat): (r: Option<string>)
    ensures r.Some? ==> p < |s| && s[p] == '(' && r.value != [] && ')' !in r.value
    ensures r.Some? ==> p + 1 + |r.value| < |s| && s[p + 1..p + 1 + |r.value|] == r.value
    ensures r.Some? ==> s[p + 1 + |r.value|] == ')'
  {
    if p < |s| && s[p] == '(' then
      match IndexOf(s, ')', p + 1)
      case Some(j) => if j > p + 1 then Some(s[p + 1..j]) else None
      case None => None
    else None
  }

  /** The section label: the trimmed contents of the leftmost `(...)` group,
      or "Unknown" when the line has none. */
  function SectionLabel(courseLine: string): string {
    match FirstMatch(courseLine, 0, ParenAt)
    case Some((_, inner)) => Trim(inner)
    case None => "Unknown"
  }

  /** The title is the trimmed text before the first `(`. */
  lemma CourseTitleBeforeParen(before: string, after: string)
    requires '(' !in before
    ensures CourseTitle(before + "(" + after) == Trim(before)
  {
    assert before + "(" + after == before + ("(" + after);
    SplitFirst(before, '(', "(" + after);
  }

  /** A line without `(` is all title. */
  lemma CourseTitleNoParen(courseLine: string)
    requires '(' !in courseLine
    ensures CourseTitle(courseLine) == Trim(courseLine)
  {
    assert IndexOf(courseLine, '(', 0) == None;
  }

  /** The label is the trimmed contents of the first parenthesised group. */
  lemma SectionLabelFirstGroup(before: string, inner: string, after: string)
    requires '(' !in before && ')' !in inner && inner != []
    ensures SectionLabel(before + "(" + inner + ")" + after) == Trim(inner)
    ensures IsTrimmed(inner) ==> SectionLabel(before + "(" + inner + ")" + after) == inner
  {
    if IsTrimmed(inner) {
      TrimTrimmed(inner);
    }
    var s := before + "(" + inner + ")" + after;
    GroupAt(before, inner, after);
    forall q | 0 <= q < |before| ensures ParenAt(s, q).None? {
      assert s[q] == before[q];
    }
    var r := FirstMatch(s, 0, ParenAt);
    assert r.Some? && r.value.0 <= |before|;
    assert r.value.0 == |before|;
    assert r == Some((|before|, inner));
  }

  /** The group itself is read at the position of its `(`. */
  lemma GroupAt(before: string, inner: string, after: string)
    requires ')' !in inner && inner != []
    ensures ParenAt(before + "(" + inner + ")" + after, |before|) == Some(inner)
  {
    var s := before + "(" + inner + ")" + after;
    var p := |before|;
    assert s == before + ("(" + inner + ")" + after);
    assert s[p] == '(';
    var j := p + 1 + |inner|;
    assert s[p + 1..j] == inner;
    assert s[j] == ')';
    IndexOfFirst(s, ')', p + 1, j);
  }

  /** A line without `(` has the "Unknown" label. */
  lemma SectionLabelNoGroup(courseLine: string)
    requires '(' !in courseLine
    ensures SectionLabel(courseLine) == "Unknown"
  {
  }

  // ------------------------------------------------------------ time lines

  /** The captures of a time line: start, end and the `lec`/`lab` kind as written. */
  datatype TimeSlot = TimeSlot(startTime: string, endTime: string, kind: string)

  /** The shape `\d{2}:\d{2}`. */
  predicate IsClock(t: string) {
    |t| == 5 && IsDigit(t[0]) && IsDigit(t[1]) && t[2] == ':' && IsDigit(t[3]) && IsDigit(t[4])
  }

  /** `(\d{2}:\d{2})\s*–\s*(\d{2}:\d{2})\s*\((lec|lab)\)` with flag `i`,
      anchored at `p`. */
  function TimeAt(s: string, p: nat): (r: Option<TimeSlot>)
    ensures r.Some? ==> IsClock(r.value.startTime) && IsClock(r.value.endTime)
    ensures r.Some? ==> EqualsIgnoreCase(r.value.kind, "lec") || EqualsIgnoreCase(r.value.kind, "lab")
    ensures r.Some? ==> p + 5 <= |s| && r.value.startTime == s[p..p + 5]
  {
    if p + 5 <= |s| && IsClock(s[p..p + 5]) then
      var q := SkipSpaces(s, p + 5);
      if q < |s| && s[q] == EnDash then
        match EndAt(s, q + 1)
        case None => None
        case Some((end, kind)) => Some(TimeSlot(s[p..p + 5], end, kind))
      else None
    else None
  }

  /** The rest of the time pattern after the en dash, `\s*(\d{2}:\d{2})\s*\((lec|lab)\)`,
      from `i`: the end clock and the kind as written. */
  function EndAt(s: string, i: nat): (r: Option<(string, string)>)
    requires i <= |s|
    ensures r.Some? ==> IsClock(r.value.0)
    ensures r.Some? ==> EqualsIgnoreCase(r.value.1, "lec") || EqualsIgnoreCase(r.value.1, "lab")
  {
    var e := SkipSpaces(s, i);
    if e + 5 <= |s| && IsClock(s[e..e + 5]) then
      var t := SkipSpaces(s, e + 5);
      if t + 5 <= |s| && s[t] == '(' && s[t + 4] == ')'
        && (EqualsIgnoreCase(s[t + 1..t + 4], "lec") || EqualsIgnoreCase(s[t + 1..t + 4], "lab"))
      then Some((s[e..e + 5], s[t + 1..t + 4]))
      else None
    else None
  }

  /** `line.match(...)` for the time pattern: its leftmost occurrence. */
  function MatchTime(line: string): Option<TimeSlot> {
    match FirstMatch(line, 0, TimeAt)
    case None => None
    case Some((_, slot)) => Some(slot)
  }

  /** A line without a colon is never a time line. */
  lemma NoColonNoTime(line: string)
    requires ':' !in line
    ensures MatchTime(line) == None
  {
    forall q | 0 <= q <= |line| ensures TimeAt(line, q).None? {
      if q + 5 <= |line| {
        assert line[q..q + 5][2] == line[q + 2];
      }
    }
  }

  /** A time slot as a line may write it, followed by the rest of the line:
      the start, any whitespace, the en dash, any whitespace, the end, any
      whitespace, and the kind in parentheses. */
  function SlotText(start: string, g1: string, g2: string, end: string, g3: string, kind: string,
                    rest: string): string
  {
    start + (g1 + ([EnDash] + (g2 + (end + (g3 + ("(" + (kind + (")" + rest))))))))
  }

  /** The clocks, whitespace runs and kind spellings the pattern accepts. */
  predicate SlotPieces(start: string, g1: string, g2: string, end: string, g3: string, kind: string) {
    && IsClock(start) && IsClock(end) && AllSpaces(g1) && AllSpaces(g2) && AllSpaces(g3)
    && (EqualsIgnoreCase(kind, "lec") || EqualsIgnoreCase(kind, "lab"))
  }

  /** A time slot written anywhere in a line, with any whitespace the pattern
      allows and the kind in any case, is read where it starts, with its
      start, end and kind as written. */
  lemma SlotAt(pre: string, start: string, g1: string, g2: string, end: string, g3: string, kind: string,
               rest: string)
    requires SlotPieces(start, g1, g2, end, g3, kind)
    ensures TimeAt(pre + SlotText(start, g1, g2, end, g3, kind, rest), |pre|) == Some(TimeSlot(start, end, kind))
  {
    var s := pre + SlotText(start, g1, g2, end, g3, kind, rest);
    assert s[|pre|..] == SlotText(start, g1, g2, end, g3, kind, rest);
    SlotReads(s, |pre|, start, g1, g2, end, g3, kind, rest);
  }

  lemma SlotReads(s: string, p: nat, start: string, g1: string, g2: string, end: string, g3: string, kind: string,
                  rest: string)
    requires SlotPieces(start, g1, g2, end, g3, kind)
    requires p <= |s| && s[p..] == SlotText(start, g1, g2, end, g3, kind, rest)
    ensures TimeAt(s, p) == Some(TimeSlot(start, end, kind))
  {
    assert |ToUpper(kind)| == |kind|;
    var q := StartLayout(s, p, start, g1, g2 + (end + (g3 + ("(" + (kind + (")" + rest))))));
    EndLayout(s, q + 1, g2, end, g3, kind, rest);
    TimeAtReads(s, p, q, start, end, kind);
  }

  /** When no slot starts earlier in the line, `line.match` finds that one. */
  lemma SlotFound(pre: string, start: string, g1: string, g2: string, end: string, g3: string, kind: string,
                  rest: string)
    requires SlotPieces(start, g1, g2, end, g3, kind)
    requires forall p :: 0 <= p < |pre| ==> TimeAt(pre + SlotText(start, g1, g2, end, g3, kind, rest), p).None?
    ensures MatchTime(pre + SlotText(start, g1, g2, end, g3, kind, rest)) == Some(TimeSlot(start, end, kind))
  {
    var s := pre + SlotText(start, g1, g2, end, g3, kind, rest);
    SlotAt(pre, start, g1, g2, end, g3, kind, rest);
    FirstMatchIs(s, |pre|, TimeAt, TimeSlot(start, end, kind));
  }

  /** Conversely, whatever the pattern matches at `p` is a time slot written
      with whitespace runs the pattern accepts, whose start, end and kind are
      the captures. */
  lemma SlotRead(s: string, p: nat)
    requires TimeAt(s, p).Some?
    ensures var slot := TimeAt(s, p).value;
      exists g1, g2, g3, rest ::
        && SlotPieces(slot.startTime, g1, g2, slot.endTime, g3, slot.kind)
        && s[p..] == SlotText(slot.startTime, g1, g2, slot.endTime, g3, slot.kind, rest)
  {
    var q, e, t := SlotShape(s, p);
    var g1, g2, g3, rest := s[p + 5..q], s[q + 1..e], s[e + 5..t], s[t + 5..];
    SlotPiecesRead(s, p, q, e, t);
    SlotSlices(s, p, q, e, t);
    assert SlotPieces(s[p..p + 5], g1, g2, s[e..e + 5], g3, s[t + 1..t + 4]);
    assert s[p..] == SlotText(s[p..p + 5], g1, g2, s[e..e + 5], g3, s[t + 1..t + 4], rest);
  }

  /** The positions a match at `p` reads through, and what it finds there. */
  lemma SlotShape(s: string, p: nat) returns (q: nat, e: nat, t: nat)
    requires TimeAt(s, p).Some?
    ensures p + 5 <= q < |s| && q + 1 <= e && e + 5 <= t && t + 5 <= |s|
    ensures IsClock(s[p..p + 5]) && SkipSpaces(s, p + 5) == q && s[q] == EnDash
    ensures SkipSpaces(s, q + 1) == e && IsClock(s[e..e + 5]) && SkipSpaces(s, e + 5) == t
    ensures s[t] == '(' && s[t + 4] == ')'
    ensures EqualsIgnoreCase(s[t + 1..t + 4], "lec") || EqualsIgnoreCase(s[t + 1..t + 4], "lab")
    ensures TimeAt(s, p) == Some(TimeSlot(s[p..p + 5], s[e..e + 5], s[t + 1..t + 4]))
  {
    q := TimeAtShape(s, p);
    e, t := EndAtShape(s, q + 1);
  }

  /** The pieces between the positions the pattern reads through are ones it accepts. */
  lemma SlotPiecesRead(s: string, p: nat, q: nat, e: nat, t: nat)
    requires p + 5 <= q && q + 1 <= e && e + 5 <= t && t + 5 <= |s|
    requires IsClock(s[p..p + 5]) && SkipSpaces(s, p + 5) == q
    requires SkipSpaces(s, q + 1) == e && IsClock(s[e..e + 5]) && SkipSpaces(s, e + 5) == t
    requires EqualsIgnoreCase(s[t + 1..t + 4], "lec") || EqualsIgnoreCase(s[t + 1..t + 4], "lab")
    ensures SlotPieces(s[p..p + 5], s[p + 5..q], s[q + 1..e], s[e..e + 5], s[e + 5..t], s[t + 1..t + 4])
  {
    RunIsSpaces(s, p + 5, q);
    RunIsSpaces(s, q + 1, e);
    RunIsSpaces(s, e + 5, t);
  }

  /** The line from `p` cut at the positions the pattern reads through. */
  lemma SlotSlices(s: string, p: nat, q: nat, e: nat, t: nat)
    requires p + 5 <= q < |s| && s[q] == EnDash
    requires q + 1 <= e && e + 5 <= t && t + 5 <= |s| && s[t] == '(' && s[t + 4] == ')'
    ensures s[p..] == SlotText(s[p..p + 5], s[p + 5..q], s[q + 1..e], s[e..e + 5], s[e + 5..t], s[t + 1..t + 4],
      s[t + 5..])
  {
    StartSlices(s, p, q);
    EndSlices(s, q + 1, e, t);
  }

  /** Where a match at `p` finds its en dash. */
  lemma TimeAtShape(s: string, p: nat) returns (q: nat)
    requires TimeAt(s, p).Some?
    ensures p + 5 <= q < |s| && IsClock(s[p..p + 5]) && SkipSpaces(s, p + 5) == q && s[q] == EnDash
    ensures EndAt(s, q + 1).Some?
    ensures TimeAt(s, p) == Some(TimeSlot(s[p..p + 5], EndAt(s, q + 1).value.0, EndAt(s, q + 1).value.1))
  {
    q := SkipSpaces(s, p + 5);
  }

  /** The positions the rest of a match reads through, and what it finds there. */
  lemma EndAtShape(s: string, i: nat) returns (e: nat, t: nat)
    requires i <= |s| && EndAt(s, i).Some?
    ensures i <= e && e + 5 <= t && t + 5 <= |s|
    ensures SkipSpaces(s, i) == e && IsClock(s[e..e + 5]) && SkipSpaces(s, e + 5) == t
    ensures s[t] == '(' && s[t + 4] == ')'
    ensures EqualsIgnoreCase(s[t + 1..t + 4], "lec") || EqualsIgnoreCase(s[t + 1..t + 4], "lab")
    ensures EndAt(s, i) == Some((s[e..e + 5], s[t + 1..t + 4]))
  {
    e := SkipSpaces(s, i);
    t := SkipSpaces(s, e + 5);
  }

  /** The line from `p` cut at the start clock and the en dash. */
  lemma StartSlices(s: string, p: nat, q: nat)
    requires p + 5 <= q < |s| && s[q] == EnDash
    ensures s[p..] == s[p..p + 5] + (s[p + 5..q] + ([EnDash] + s[q + 1..]))
  {
    assert s[q..q + 1] == [EnDash];
    Unread(s, q, q + 1);
    Unread(s, p + 5, q);
    Unread(s, p, p + 5);
  }

  /** The rest of the line cut at the end clock and the parenthesised kind. */
  lemma EndSlices(s: string, i: nat, e: nat, t: nat)
    requires i <= e && e + 5 <= t && t + 5 <= |s| && s[t] == '(' && s[t + 4] == ')'
    ensures s[i..] == s[i..e] + (s[e..e + 5] + (s[e + 5..t] + ("(" + (s[t + 1..t + 4] + (")" + s[t + 5..])))))
  {
    assert s[t + 4..t + 5] == ")";
    Unread(s, t + 4, t + 5);
    Unread(s, t + 1, t + 4);
    assert s[t..t + 1] == "(";
    Unread(s, t, t + 1);
    Unread(s, e + 5, t);
    Unread(s, e, e + 5);
    Unread(s, i, e);
  }

  /** The start clock and the `\s*` run up to the en dash, at `p`. */
  lemma StartLayout(s: string, p: nat, start: string, g1: string, tail: string) returns (q: nat)
    requires IsClock(start) && AllSpaces(g1)
    requires p <= |s| && s[p..] == start + (g1 + ([EnDash] + tail))
    ensures p + 5 <= q < |s| && s[p..p + 5] == start && SkipSpaces(s, p + 5) == q
    ensures s[q] == EnDash && s[q + 1..] == tail
  {
    ReadOver(s, p, start, g1 + ([EnDash] + tail));
    q := SkipToken(s, p + 5, g1, [EnDash] + tail);
    CharOver(s, q, [EnDash], tail);
  }

  /** The end clock and the kind in parentheses, each after a `\s*` run, from `i`. */
  lemma EndLayout(s: string, i: nat, g2: string, end: string, g3: string, kind: string, rest: string)
    requires IsClock(end) && AllSpaces(g2) && AllSpaces(g3)
    requires EqualsIgnoreCase(kind, "lec") || EqualsIgnoreCase(kind, "lab")
    requires i <= |s| && s[i..] == g2 + (end + (g3 + ("(" + (kind + (")" + rest)))))
    ensures EndAt(s, i) == Some((end, kind))
  {
    var e := SkipToken(s, i, g2, end + (g3 + ("(" + (kind + (")" + rest)))));
    ReadOver(s, e, end, g3 + ("(" + (kind + (")" + rest))));
    var t := KindLayout(s, e + 5, g3, kind, rest);
    EndAtReads(s, i, e, t);
  }

  /** The kind in parentheses after a `\s*` run, from `i`. */
  lemma KindLayout(s: string, i: nat, g3: string, kind: string, rest: string) returns (t: nat)
    requires AllSpaces(g3) && |kind| == 3
    requires i <= |s| && s[i..] == g3 + ("(" + (kind + (")" + rest)))
    ensures i <= t && t + 5 <= |s| && SkipSpaces(s, i) == t
    ensures s[t] == '(' && s[t + 1..t + 4] == kind && s[t + 4] == ')'
  {
    t := SkipToken(s, i, g3, "(" + (kind + (")" + rest)));
    CharOver(s, t, "(", kind + (")" + rest));
    ReadOver(s, t + 1, kind, ")" + rest);
    CharOver(s, t + 4, ")", rest);
  }

  /** The pattern read at `p` through the position of its en dash. */
  lemma TimeAtReads(s: string, p: nat, q: nat, start: string, end: string, kind: string)
    requires IsClock(start) && p + 5 <= q < |s| && s[p..p + 5] == start
    requires SkipSpaces(s, p + 5) == q && s[q] == EnDash
    requires EndAt(s, q + 1) == Some((end, kind))
    ensures TimeAt(s, p) == Some(TimeSlot(start, end, kind))
  {
  }

  /** The rest of the pattern read through the positions where its whitespace runs stop. */
  lemma EndAtReads(s: string, i: nat, e: nat, t: nat)
    requires i <= e && e + 5 <= t && t + 5 <= |s|
    requires SkipSpaces(s, i) == e && IsClock(s[e..e + 5]) && SkipSpaces(s, e + 5) == t
    requires s[t] == '(' && s[t + 4] == ')'
    requires EqualsIgnoreCase(s[t + 1..t + 4], "lec") || EqualsIgnoreCase(s[t + 1..t + 4], "lab")
    ensures EndAt(s, i) == Some((s[e..e + 5], s[t + 1..t + 4]))
  {
  }

  // ------------------------------------------------------------ the scan

  /** The scan's mutable course context: `currentCourseCode`,
      `currentCourseTitle` and `currentSection`. */
  datatype Context = Context(code: string, title: string, section: string)

  /** A draft schedule, not yet persisted. */
  datatype Draft = Draft(
    courseCode: string, courseTitle: string, section: string, instructor: string,
    room: string, startTime: string, endTime: string,
    semesterStartDate: string, semesterEndDate: string,
    days: DayMask, displaySection: string)

  /** What the scan reads besides the lines: the resolved instructor's id,
      the document's semester dates and the section directory. */
  datatype Env = Env(instructor: string, semesterStartDate: string, semesterEndDate: string,
                     findSection: SectionDirectory)

  /** `lines[i + 1] || ""`: the lookahead line, or "" past the end. */
  function NextLine(lines: seq<string>, i: nat): string {
    if i + 1 < |lines| then lines[i + 1] else ""
  }

  /** The context a header line with code `code` sets, from the line after it. */
  function HeaderContext(code: string, courseLine: string): Context {
    Context(code, CourseTitle(courseLine), SectionLabel(courseLine))
  }

  /** The context in force when line `i` is reached. */
  function ContextAt(lines: seq<string>, i: nat): Context
    requires i <= |lines|
    decreases i
  {
    if i == 0 then Context("", "", "")
    else match MatchHeader(lines[i - 1])
      case Some(code) => HeaderContext(code, NextLine(lines, i - 1))
      case None => ContextAt(lines, i - 1)
  }

  /** The draft `schedules.push` adds for a slot whose section was found. */
  function MakeDraft(ctx: Context, slot: TimeSlot, days: DayMask, doc: SectionRecord, env: Env): Draft {
    Draft(ctx.code, ctx.title, doc.id, env.instructor, "TBD", slot.startTime, slot.endTime,
          env.semesterStartDate, env.semesterEndDate, days,
          doc.course + " " + doc.section + doc.block)
  }

  /** What line `i` contributes under context `ctx`: a header or a line that
      is not a time line gives nothing, and so does a time line whose section
      lookup fails. */
  function LineDraft(lines: seq<string>, i: nat, ctx: Context, env: Env): Option<Draft>
    requires i < |lines|
  {
    if MatchHeader(lines[i]).Some? then None
    else match MatchTime(lines[i])
      case None => None
      case Some(slot) =>
        match env.findSection(SectionQueryOf(ctx.section))
        case None => None
        case Some(doc) => Some(MakeDraft(ctx, slot, DecodeDays(NextLine(lines, i)), doc, env))
  }

  /** A time line whose section is found yields the draft built from it. */
  lemma SlotLineYields(lines: seq<string>, i: nat, ctx: Context, env: Env, slot: TimeSlot, doc: SectionRecord)
    requires i < |lines| && MatchHeader(lines[i]).None? && MatchTime(lines[i]) == Some(slot)
    requires env.findSection(SectionQueryOf(ctx.section)) == Some(doc)
    ensures LineDraft(lines, i, ctx, env) == Some(MakeDraft(ctx, slot, DecodeDays(NextLine(lines, i)), doc, env))
  {
  }

  function LineDrafts(lines: seq<string>, env: Env): seq<Option<Draft>> {
    seq(|lines|, j requires 0 <= j < |lines| => LineDraft(lines, j, ContextAt(lines, j), env))
  }

  /** The drafts of a document: what every line contributes, in line order. */
  function Drafts(lines: seq<string>, env: Env): seq<Draft> {
    Compact(LineDrafts(lines, env))
  }

  /** The handler's `for` loop over the lines, with its three context
      variables and its `schedules` array. */
  method ScanLines(lines: seq<string>, env: Env) returns (schedules: seq<Draft>)
    ensures schedules == Drafts(lines, env)
  {
    ghost var contributions := LineDrafts(lines, env);
    var currentCourseCode, currentCourseTitle, currentSection := "", "", "";
    schedules := [];
    for i := 0 to |lines|
      invariant Context(currentCourseCode, currentCourseTitle, currentSection) == ContextAt(lines, i)
      invariant schedules == Compact(contributions[..i])
    {
      CompactSnoc(contributions, i);
      ScanStep(lines, i, env);
      var line := lines[i];
      var courseCodeMatch := MatchHeader(line);
      if courseCodeMatch.Some? {
        currentCourseCode := courseCodeMatch.value;
        var courseLine := NextLine(lines, i);
        currentCourseTitle := CourseTitle(courseLine);
        currentSection := SectionLabel(courseLine);
        continue;
      }
      var timeMatch := MatchTime(line);
      if timeMatch.Some? {
        var days := DecodeDays(NextLine(lines, i));
        var ctx := Context(currentCourseCode, currentCourseTitle, currentSection);
        var sectionDoc := env.findSection(SectionQueryOf(currentSection));
        if sectionDoc.None? {
          continue;
        }
        schedules := schedules + [MakeDraft(ctx, timeMatch.value, days, sectionDoc.value, env)];
      }
    }
    assert contributions[..|lines|] == contributions;
  }

  /** What one pass of the loop reads: the context after line `i`, and
      what line `i` contributes. */
  lemma ScanStep(lines: seq<string>, i: nat, env: Env)
    requires i < |lines|
    ensures var ctx := ContextAt(lines, i);
      && LineDrafts(lines, env)[i] == LineDraft(lines, i, ctx, env)
      && (MatchHeader(lines[i]).Some? ==>
            && ContextAt(lines, i + 1) == HeaderContext(MatchHeader(lines[i]).value, NextLine(lines, i))
            && LineDraft(lines, i, ctx, env).None?)
      && (MatchHeader(lines[i]).None? ==> ContextAt(lines, i + 1) == ctx)
      && (MatchHeader(lines[i]).None? && MatchTime(lines[i]).None? ==> LineDraft(lines, i, ctx, env).None?)
      && (MatchHeader(lines[i]).None? && MatchTime(lines[i]).Some? ==>
            LineDraft(lines, i, ctx, env) ==
              match env.findSection(SectionQueryOf(ctx.section))
              case None => None
              case Some(doc) => Some(MakeDraft(ctx, MatchTime(lines[i]).value, DecodeDays(NextLine(lines, i)), doc, env)))
  {
  }

  // ------------------------------------------------------ what the scan yields

  /** After a header, the context is the one that header set, until the next header. */
  lemma ContextFromLastHeader(lines: seq<string>, h: nat, i: nat)
    requires h < i <= |lines| && MatchHeader(lines[h]).Some?
    requires forall j :: h < j < i ==> MatchHeader(lines[j]).None?
    ensures ContextAt(lines, i) == HeaderContext(MatchHeader(lines[h]).value, NextLine(lines, h))
  {
    var ctx := HeaderContext(MatchHeader(lines[h]).value, NextLine(lines, h));
    ContextAfterHeaderLine(lines, h);
    assert ContextAt(lines, h + 1) == ctx;
    assert forall j :: h + 1 <= j < i ==> MatchHeader(lines[j]).None?;
    ContextStays(lines, h + 1, i);
  }

  /** Lines that are not headers leave the context as it was. */
  lemma ContextStays(lines: seq<string>, from: nat, i: nat)
    requires from <= i <= |lines|
    requires forall j :: from <= j < i ==> MatchHeader(lines[j]).None?
    ensures ContextAt(lines, i) == ContextAt(lines, from)
  {
    var contexts := seq(i + 1, k requires 0 <= k <= i => ContextAt(lines, k));
    forall j | from < j <= i
      ensures contexts[j] == contexts[j - 1]
    {
      ContextAfterPlainLine(lines, j);
    }
    SameFrom(contexts, from, i);
  }

  /** A line that is not a header leaves the context as it was. */
  lemma ContextAfterPlainLine(lines: seq<string>, i: nat)
    requires 0 < i <= |lines| && MatchHeader(lines[i - 1]).None?
    ensures ContextAt(lines, i) == ContextAt(lines, i - 1)
  {
  }

  /** A header line sets the context from itself and the line after it. */
  lemma ContextAfterHeaderLine(lines: seq<string>, h: nat)
    requires h < |lines| && MatchHeader(lines[h]).Some?
    ensures ContextAt(lines, h + 1) == HeaderContext(MatchHeader(lines[h]).value, NextLine(lines, h))
  {
  }

  /** Below a first-line header that no other header follows, every line
      is scanned under the context that header set. */
  lemma OneCourse(lines: seq<string>, code: string)
    requires |lines| >= 1 && MatchHeader(lines[0]) == Some(code)
    requires forall j :: 1 <= j < |lines| ==> MatchHeader(lines[j]).None?
    ensures forall i :: 1 <= i <= |lines| ==> ContextAt(lines, i) == HeaderContext(code, NextLine(lines, 0))
  {
    forall i | 1 <= i <= |lines| ensures ContextAt(lines, i) == HeaderContext(code, NextLine(lines, 0)) {
      ContextFromLastHeader(lines, 0, i);
    }
  }

  /** Before the first header, the context is empty. */
  lemma {:induction false} ContextBeforeHeaders(lines: seq<string>, i: nat)
    requires i <= |lines|
    requires forall j :: 0 <= j < i ==> MatchHeader(lines[j]).None?
    ensures ContextAt(lines, i) == Context("", "", "")
    decreases i
  {
    if i > 0 {
      ContextBeforeHeaders(lines, i - 1);
    }
  }

  /** The course code in force is empty or a header code. */
  lemma {:induction false} ContextCodeShape(lines: seq<string>, i: nat)
    requires i <= |lines|
    ensures ContextAt(lines, i).code == "" || IsHeaderCode(ContextAt(lines, i).code)
    decreases i
  {
    if i > 0 && MatchHeader(lines[i - 1]).None? {
      ContextCodeShape(lines, i - 1);
    }
  }

  /** A time line that is not a header. */
  predicate IsSlotLine(line: string) {
    MatchHeader(line).None? && MatchTime(line).Some?
  }

  /** The section lookup line `i` performs. */
  function LookupAt(lines: seq<string>, i: nat, env: Env): Option<SectionRecord>
    requires i <= |lines|
  {
    env.findSection(SectionQueryOf(ContextAt(lines, i).section))
  }

  /** Line `i` yields a draft: it is a time line and its section was found. */
  predicate YieldsDraft(lines: seq<string>, i: nat, env: Env)
    requires i < |lines|
  {
    IsSlotLine(lines[i]) && LookupAt(lines, i, env).Some?
  }

  /** The line each draft comes from. */
  function DraftOrigins(lines: seq<string>, env: Env): (origins: seq<nat>)
    ensures |origins| == |Drafts(lines, env)|
    ensures forall k :: 0 <= k < |origins| ==> origins[k] < |lines|
  {
    CompactPositions(LineDrafts(lines, env));
    PresentAt(LineDrafts(lines, env))
  }

  /** Every draft comes from one line that yields a draft, in line order, and
      every such line yields exactly one draft, built from the context, the
      slot, the lookahead line's days and the record found. */
  lemma DraftsFromSlotLines(lines: seq<string>, env: Env)
    ensures |DraftOrigins(lines, env)| == |Drafts(lines, env)|
    ensures forall k :: 0 <= k < |DraftOrigins(lines, env)| ==>
      var i := DraftOrigins(lines, env)[k];
      && i < |lines| && YieldsDraft(lines, i, env)
      && Drafts(lines, env)[k] == MakeDraft(ContextAt(lines, i), MatchTime(lines[i]).value,
           DecodeDays(NextLine(lines, i)), LookupAt(lines, i, env).value, env)
    ensures forall k, l :: 0 <= k < l < |DraftOrigins(lines, env)| ==>
      DraftOrigins(lines, env)[k] < DraftOrigins(lines, env)[l]
    ensures forall i :: 0 <= i < |lines| ==> (i in DraftOrigins(lines, env) <==> YieldsDraft(lines, i, env))
  {
    var xs := LineDrafts(lines, env);
    CompactPositions(xs);
    forall i | 0 <= i < |lines|
      ensures xs[i].Some? <==> YieldsDraft(lines, i, env)
      ensures xs[i].Some? ==> xs[i].value == MakeDraft(ContextAt(lines, i), MatchTime(lines[i]).value,
           DecodeDays(NextLine(lines, i)), LookupAt(lines, i, env).value, env)
    {
      LineDraftShape(lines, i, env);
    }
  }

  /** What line `i` contributes, in terms of the line alone. */
  lemma LineDraftShape(lines: seq<string>, i: nat, env: Env)
    requires i < |lines|
    ensures LineDrafts(lines, env)[i].Some? <==> YieldsDraft(lines, i, env)
    ensures LineDrafts(lines, env)[i].Some? ==>
      LineDrafts(lines, env)[i].value == MakeDraft(ContextAt(lines, i), MatchTime(lines[i]).value,
        DecodeDays(NextLine(lines, i)), LookupAt(lines, i, env).value, env)
  {
  }

  /** How many lines are time lines. */
  function SlotLineCount(lines: seq<string>): nat {
    CountTrue(seq(|lines|, i requires 0 <= i < |lines| => IsSlotLine(lines[i])))
  }

  /** How many lines are time lines whose section was not found. */
  function UnresolvedCount(lines: seq<string>, env: Env): nat {
    CountTrue(seq(|lines|, i requires 0 <= i < |lines| => IsSlotLine(lines[i]) && LookupAt(lines, i, env).None?))
  }

  /** Every time line yields a draft or is skipped for its section, never both. */
  lemma DraftCount(lines: seq<string>, env: Env)
    ensures |Drafts(lines, env)| + UnresolvedCount(lines, env) == SlotLineCount(lines)
  {
    var xs := LineDrafts(lines, env);
    var slot := seq(|lines|, i requires 0 <= i < |lines| => IsSlotLine(lines[i]));
    var skipped := seq(|lines|, i requires 0 <= i < |lines| => IsSlotLine(lines[i]) && LookupAt(lines, i, env).None?);
    forall i | 0 <= i < |lines|
      ensures slot[i] == (xs[i].Some? || skipped[i]) && !(xs[i].Some? && skipped[i])
    {
      LineDraftPresent(lines, i, env);
    }
    CompactCountSplit(xs, slot, skipped);
  }

  /** Line `i` contributes a draft exactly when it is a time line whose
      section is found. */
  lemma LineDraftPresent(lines: seq<string>, i: nat, env: Env)
    requires i < |lines|
    ensures LineDrafts(lines, env)[i].Some? <==> IsSlotLine(lines[i]) && LookupAt(lines, i, env).Some?
  {
  }

  /** Every draft carries the instructor and semester dates it was scanned
      with, the "TBD" room, clock-shaped times and an empty or header course
      code. */
  lemma DraftFields(lines: seq<string>, env: Env)
    ensures forall d :: d in Drafts(lines, env) ==>
      && d.instructor == env.instructor && d.room == "TBD"
      && d.semesterStartDate == env.semesterStartDate && d.semesterEndDate == env.semesterEndDate
      && IsClock(d.startTime) && IsClock(d.endTime)
      && (d.courseCode == "" || IsHeaderCode(d.courseCode))
  {
    DraftsFromSlotLines(lines, env);
    var origins := DraftOrigins(lines, env);
    var ds := Drafts(lines, env);
    forall d | d in ds
      ensures d.instructor == env.instructor && d.room == "TBD"
      ensures d.semesterStartDate == env.semesterStartDate && d.semesterEndDate == env.semesterEndDate
      ensures IsClock(d.startTime) && IsClock(d.endTime)
      ensures d.courseCode == "" || IsHeaderCode(d.courseCode)
    {
      var k :| 0 <= k < |ds| && ds[k] == d;
      ContextCodeShape(lines, origins[k]);
    }
  }

  /** Draft `k` and the line it comes from. */
  lemma DraftAt(lines: seq<string>, env: Env, k: nat)
    requires k < |DraftOrigins(lines, env)|
    ensures DraftOrigins(lines, env)[k] < |lines| && k < |Drafts(lines, env)|
    ensures var i := DraftOrigins(lines, env)[k];
      && YieldsDraft(lines, i, env)
      && Drafts(lines, env)[k] == MakeDraft(ContextAt(lines, i), MatchTime(lines[i]).value,
           DecodeDays(NextLine(lines, i)), LookupAt(lines, i, env).value, env)
  {
    DraftsFromSlotLines(lines, env);
  }

  /** A draft carries the code and title of the last header above its time
      line. */
  lemma DraftUnderHeader(lines: seq<string>, env: Env, k: nat, h: nat)
    requires k < |DraftOrigins(lines, env)|
    requires h < DraftOrigins(lines, env)[k] && MatchHeader(lines[h]).Some?
    requires forall j :: h < j < DraftOrigins(lines, env)[k] ==> MatchHeader(lines[j]).None?
    ensures k < |Drafts(lines, env)|
    ensures Drafts(lines, env)[k].courseCode == MatchHeader(lines[h]).value
    ensures Drafts(lines, env)[k].courseTitle == CourseTitle(NextLine(lines, h))
  {
    DraftAt(lines, env, k);
    ContextFromLastHeader(lines, h, DraftOrigins(lines, env)[k]);
  }

  /** A draft whose time line comes before every header has an empty code and title. */
  lemma DraftBeforeHeaders(lines: seq<string>, env: Env, k: nat)
    requires k < |DraftOrigins(lines, env)|
    requires forall j :: 0 <= j < DraftOrigins(lines, env)[k] ==> MatchHeader(lines[j]).None?
    ensures k < |Drafts(lines, env)|
    ensures Drafts(lines, env)[k].courseCode == "" && Drafts(lines, env)[k].courseTitle == ""
  {
    DraftAt(lines, env, k);
    ContextBeforeHeaders(lines, DraftOrigins(lines, env)[k]);
  }

  /** A time line that is the last line has no day line, yet it is still
      scanned: when its section is found it yields the last draft, with no
      day set. */
  lemma LastLineSlotHasNoDays(lines: seq<string>, env: Env)
    requires |lines| >= 1 && YieldsDraft(lines, |lines| - 1, env)
    ensures |lines| - 1 in DraftOrigins(lines, env)
    ensures |Drafts(lines, env)| >= 1
    ensures DraftOrigins(lines, env)[|Drafts(lines, env)| - 1] == |lines| - 1
    ensures Drafts(lines, env)[|Drafts(lines, env)| - 1].days == DayMask(false, false, false, false, false, false)
  {
    DraftsFromSlotLines(lines, env);
    var origins := DraftOrigins(lines, env);
    var last := |origins| - 1;
    var k :| 0 <= k < |origins| && origins[k] == |lines| - 1;
    assert origins[k] <= origins[last];
    DraftAt(lines, env, last);
    DecodeExamples();
  }

  /** A header on the last line has no course line: it sets an empty title and
      the "Unknown" section label. */
  lemma HeaderOnLastLine(lines: seq<string>)
    requires |lines| >= 1 && MatchHeader(lines[|lines| - 1]).Some?
    ensures ContextAt(lines, |lines|) == Context(MatchHeader(lines[|lines| - 1]).value, "", "Unknown")
  {
    assert NextLine(lines, |lines| - 1) == "";
    assert IndexOf("", '(', 0) == None;
    assert Split("", '(') == [""];
    assert Trim("") == "";
    assert FirstMatch("", 1, ParenAt) == None;
    assert FirstMatch("", 0, ParenAt) == None;
  }

  /** The display label of a draft is the found section's course, a space,
      then its section and block. */
  lemma DraftDisplaySection(lines: seq<string>, env: Env, k: nat)
    requires k < |DraftOrigins(lines, env)|
    ensures DraftOrigins(lines, env)[k] < |lines| && k < |Drafts(lines, env)|
    ensures var doc := LookupAt(lines, DraftOrigins(lines, env)[k], env);
      && doc.Some?
      && Drafts(lines, env)[k].section == doc.value.id
      && Drafts(lines, env)[k].displaySection == doc.value.course + " " + doc.value.section + doc.value.block
  {
    DraftAt(lines, env, k);
  }

  // ------------------------------------------------------ a worked example

  const ExampleRecord := SectionRecord("sec1", "IT", "2", "A")

  /** A directory holding the one section "IT 2A". */
  const ExampleEnv := Env("inst1", "2024-08-01", "2024-12-15",
                          (q: SectionQuery) => FindSection([ExampleRecord], q))

  const ExampleLines := ["IS101", "Data Structures (IT 2A)", "08:00 \U{2013} 09:30 (lec)", "MWF"]

  lemma ExampleCode()
    ensures MatchHeader("IS101") == Some("IS101")
  {
    assert "IS101"[..2] == "IS";
    assert SkipSpaces("IS101", 2) == 2;
    assert "IS101"[..5] == "IS101";
  }

  lemma ExampleTitle()
    ensures CourseTitle("Data Structures (IT 2A)") == "Data Structures"
  {
    ExampleCourseLineParts();
    CourseTitleBeforeParen("Data Structures ", "IT 2A)");
    ExampleTitleTrim();
  }

  lemma ExampleCourseLineParts()
    ensures "Data Structures (IT 2A)" == "Data Structures " + "(" + "IT 2A)"
    ensures "Data Structures (IT 2A)" == "Data Structures " + "(" + "IT 2A" + ")" + ""
    ensures '(' !in "Data Structures " && ')' !in "IT 2A"
  {
  }

  lemma ExampleTitleTrim()
    ensures Trim("Data Structures ") == "Data Structures"
  {
    assert "Data Structures " == "" + "Data Structures" + " ";
    TrimPadded("", "Data Structures", " ");
  }

  lemma ExampleSection()
    ensures SectionLabel("Data Structures (IT 2A)") == "IT 2A"
  {
    ExampleCourseLineParts();
    SectionLabelFirstGroup("Data Structures ", "IT 2A", "");
  }

  lemma ExampleOtherLines()
    ensures !IsSlotLine("Data Structures (IT 2A)") && MatchHeader("Data Structures (IT 2A)").None?
    ensures !IsSlotLine("MWF") && MatchHeader("MWF").None?
  {
    assert "Data Structures (IT 2A)"[..2] == "Da";
    NoColonNoTime("Data Structures (IT 2A)");
    assert "MWF"[..2] == "MW";
    NoColonNoTime("MWF");
  }

  lemma ExampleSlot()
    ensures MatchHeader("08:00 \U{2013} 09:30 (lec)").None?
    ensures MatchTime("08:00 \U{2013} 09:30 (lec)") == Some(TimeSlot("08:00", "09:30", "lec"))
  {
    assert "08:00 \U{2013} 09:30 (lec)"[..2] == "08";
    ExampleSlotTime();
  }

  lemma ExampleSlotTime()
    ensures MatchTime("08:00 \U{2013} 09:30 (lec)") == Some(TimeSlot("08:00", "09:30", "lec"))
  {
    var text := SlotText("08:00", " ", " ", "09:30", " ", "lec", "");
    assert "08:00 \U{2013} 09:30 (lec)" == text == [] + text;
    SlotFound([], "08:00", " ", " ", "09:30", " ", "lec", "");
  }

  lemma ExampleLookup()
    ensures ExampleEnv.findSection(SectionQueryOf("IT 2A")) == Some(ExampleRecord)
  {
    QueryExample();
    assert OccursAt("IT", "IT", 0);
    assert Satisfies(ExampleRecord, SectionQuery("IT", Some('2'), Some('A')));
  }

  /** The header of the example sets its code, title and section label. */
  lemma ExampleHeaderContext()
    ensures HeaderContext("IS101", "Data Structures (IT 2A)") == Context("IS101", "Data Structures", "IT 2A")
  {
    ExampleTitle();
    ExampleSection();
  }

  lemma ExampleLineValues()
    ensures |ExampleLines| == 4
    ensures ExampleLines[0] == "IS101" && ExampleLines[1] == "Data Structures (IT 2A)"
    ensures ExampleLines[2] == "08:00 \U{2013} 09:30 (lec)" && ExampleLines[3] == "MWF"
  {
  }

  /** What the patterns find on each line of the example. */
  lemma ExampleLineFacts()
    ensures |ExampleLines| == 4
    ensures MatchHeader(ExampleLines[0]) == Some("IS101")
    ensures NextLine(ExampleLines, 0) == "Data Structures (IT 2A)"
    ensures NextLine(ExampleLines, 2) == "MWF"
    ensures MatchHeader(ExampleLines[1]).None? && MatchHeader(ExampleLines[2]).None?
    ensures MatchHeader(ExampleLines[3]).None?
    ensures !IsSlotLine(ExampleLines[1]) && !IsSlotLine(ExampleLines[3])
    ensures MatchTime(ExampleLines[2]) == Some(TimeSlot("08:00", "09:30", "lec"))
  {
    ExampleLineValues();
    ExampleCode();
    ExampleOtherLines();
    ExampleSlot();
  }

  /** The context the header sets holds for the three lines below it. */
  lemma ExampleContext()
    ensures forall i :: 1 <= i <= 3 ==> ContextAt(ExampleLines, i) == Context("IS101", "Data Structures", "IT 2A")
  {
    var lines := ExampleLines;
    ExampleLineFacts();
    ExampleHeaderContext();
    forall j | 1 <= j < |lines| ensures MatchHeader(lines[j]).None? {
      assert j == 1 || j == 2 || j == 3;
    }
    OneCourse(lines, "IS101");
  }

  const ExampleDraft := Draft(
    "IS101", "Data Structures", "sec1", "inst1", "TBD", "08:00", "09:30",
    "2024-08-01", "2024-12-15", DayMask(true, false, true, false, true, false), "IT 2A")

  /** The draft of the example's time line. */
  lemma ExampleMakeDraft()
    ensures MakeDraft(Context("IS101", "Data Structures", "IT 2A"), TimeSlot("08:00", "09:30", "lec"),
      DayMask(true, false, true, false, true, false), ExampleRecord, ExampleEnv) == ExampleDraft
  {
    assert "IT" + " " + "2" + "A" == "IT 2A";
  }

  /** The time line of the example yields its draft. */
  lemma ExampleSlotDraft()
    ensures LineDraft(ExampleLines, 2, Context("IS101", "Data Structures", "IT 2A"), ExampleEnv) == Some(ExampleDraft)
  {
    var lines := ExampleLines;
    var ctx := Context("IS101", "Data Structures", "IT 2A");
    ExampleLineFacts();
    ExampleLookup();
    DecodeExamples();
    ExampleMakeDraft();
    SlotLineYields(lines, 2, ctx, ExampleEnv, TimeSlot("08:00", "09:30", "lec"), ExampleRecord);
  }

  lemma ExampleContributions()
    ensures LineDrafts(ExampleLines, ExampleEnv) == [None, None, Some(ExampleDraft), None]
  {
    var lines := ExampleLines;
    var env := ExampleEnv;
    var xs := LineDrafts(lines, env);
    ExampleLineFacts();
    ExampleContext();
    ExampleSlotDraft();
    assert |xs| == 4;
    assert xs[0] == None && xs[1] == None && xs[3] == None;
    assert xs[2] == Some(ExampleDraft);
    FourEntries(xs);
  }

  lemma FourEntries<T>(xs: seq<T>)
    requires |xs| == 4
    ensures xs == [xs[0], xs[1], xs[2], xs[3]]
  {
  }

  /** The document of one course with one lecture on Monday, Wednesday and
      Friday yields exactly one draft. */
  lemma ExampleDrafts()
    ensures Drafts(ExampleLines, ExampleEnv) == [ExampleDraft]
  {
    ExampleContributions();
    CompactThirdOfFour(ExampleDraft);
  }

  lemma CompactThirdOfFour<T>(d: T)
    ensures Compact([None, None, Some(d), None]) == [d]
  {
    var a: seq<Option<T>> := [None];
    var b: seq<Option<T>> := [None, None];
    var c: seq<Option<T>> := [None, None, Some(d)];
    var xs: seq<Option<T>> := [None, None, Some(d), None];
    assert a[..0] == [] && Compact(a) == [];
    assert b[..1] == a && Compact(b) == [];
    assert c[..2] == b && Compact(c) == [d];
    assert xs[..3] == c;
  }
}
