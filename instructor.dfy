/** The instructor resolver of the teaching-load parser: the declared name,
    the fuzzy pattern built from it, and the directory's answer. */
module Instructor {
  import opened Wrappers
  import opened Strings

  /** A user record of the instructor directory. */
  datatype InstructorRecord = InstructorRecord(id: string, firstName: string, middleName: string, lastName: string)

  /** `UserModel.findOne` with a `$regexMatch` on "first middle last" against
      the given pattern: the directory's query, left abstract. */
  type InstructorDirectory = string -> Option<InstructorRecord>

  const NameLabel: string := "Name of Instructor:"

  /** The label, case-insensitively, at position `p`; yields the position after it. */
  function LabelAt(text: string, p: nat): (r: Option<nat>)
    ensures r.Some? ==> r.value == p + |NameLabel| <= |text|
  {
    if p + |NameLabel| <= |text| && EqualsIgnoreCase(text[p..p + |NameLabel|], NameLabel)
    then Some(p + |NameLabel|) else None
  }

  /** `c` is what `(.*)` captures once the label ends at `end` and `\s*` has
      run to `q`: the whitespace from `end` up to the first non-space `q`
      (newlines included) is skipped, and `c` is the text from `q` up to the
      next line terminator or the end. */
  predicate CapturedFrom(text: string, end: nat, q: nat, c: string) {
    && end <= q && q + |c| <= |text|
    && (forall k :: end <= k < q ==> IsSpace(text[k]))
    && (q == |text| || !IsSpace(text[q]))
    && text[q..q + |c|] == c
    && (forall k :: 0 <= k < |c| ==> !IsLineTerminator(c[k]))
    && (q + |c| == |text| || IsLineTerminator(text[q + |c|]))
  }

  /** The capture of `/Name of Instructor:\s*(.*)/i` once the label ends at `end`. */
  function CaptureAfter(text: string, end: nat): (c: string)
    requires end <= |text|
    ensures exists q :: CapturedFrom(text, end, q, c)
    ensures c == [] || !IsSpace(c[0])
    ensures forall k :: 0 <= k < |c| ==> !IsLineTerminator(c[k])
  {
    var q := SkipSpaces(text, end);
    var c := text[q..LineEnd(text, q)];
    assert CapturedFrom(text, end, q, c);
    c
  }

  /** The capture is determined by the text and the label's end. */
  lemma CapturedFromUnique(text: string, end: nat, q1: nat, c1: string, q2: nat, c2: string)
    requires CapturedFrom(text, end, q1, c1) && CapturedFrom(text, end, q2, c2)
    ensures q1 == q2 && c1 == c2
  {
    SkipGap(text, end, q1);
    SkipGap(text, end, q2);
    assert forall k :: q1 <= k < q1 + |c1| ==> text[k] == c1[k - q1];
    assert forall k :: q2 <= k < q2 + |c2| ==> text[k] == c2[k - q2];
    LineEndAt(text, q1, q1 + |c1|);
    LineEndAt(text, q2, q2 + |c2|);
  }

  /** `instructorFullName`: the capture of the leftmost label, trimmed and
      upper-cased, or `""` when the document has no label. */
  function InstructorName(text: string): (name: string)
    ensures IsTrimmed(name) && HasNoLowerAscii(name)
    ensures forall k :: 0 <= k < |name| ==> !IsLineTerminator(name[k])
  {
    match FirstMatch(text, 0, LabelAt)
    case None => ""
    case Some((_, end)) =>
      var t := Trim(CaptureAfter(text, end));
      UpperOfTrimmedLine(CaptureAfter(text, end), t);
      ToUpper(t)
  }

  /** Upper-casing the trimmed text of one line keeps it trimmed and on one line. */
  lemma UpperOfTrimmedLine(c: string, t: string)
    requires forall k :: 0 <= k < |c| ==> !IsLineTerminator(c[k])
    requires t == Trim(c)
    ensures IsTrimmed(ToUpper(t)) && HasNoLowerAscii(ToUpper(t))
    ensures forall k :: 0 <= k < |ToUpper(t)| ==> !IsLineTerminator(ToUpper(t)[k])
  {
    ToUpperFacts(t);
    TrimmedLineHasNoTerminator(c, t);
    UpperKeepsLine(t);
  }

  lemma TrimmedLineHasNoTerminator(c: string, t: string)
    requires forall k :: 0 <= k < |c| ==> !IsLineTerminator(c[k])
    requires forall ch :: ch in t ==> ch in c
    ensures forall k :: 0 <= k < |t| ==> !IsLineTerminator(t[k])
  {
    forall k | 0 <= k < |t| ensures !IsLineTerminator(t[k]) {
      assert t[k] in c;
    }
  }

  lemma UpperKeepsLine(t: string)
    requires forall k :: 0 <= k < |t| ==> !IsLineTerminator(t[k])
    ensures forall k :: 0 <= k < |ToUpper(t)| ==> !IsLineTerminator(ToUpper(t)[k])
  {
  }

  /** `name.replace(/\s+/g, ".*")`: every maximal run of whitespace becomes
      the wildcard gap `.*`. */
  function FuzzyPattern(name: string): (pattern: string)
    ensures forall k :: 0 <= k < |pattern| ==> !IsSpace(pattern[k])
    decreases |name|
  {
    if name == [] then []
    else if IsSpace(name[0]) then ".*" + FuzzyPattern(name[SkipSpaces(name, 0)..])
    else [name[0]] + FuzzyPattern(name[1..])
  }

  predicate SpaceFree(s: string) {
    forall k :: 0 <= k < |s| ==> !IsSpace(s[k])
  }

  /** A run of non-space characters is copied into the pattern unchanged. */
  lemma {:induction false} FuzzyPatternKeepsWord(word: string, rest: string)
    requires SpaceFree(word)
    ensures FuzzyPattern(word + rest) == word + FuzzyPattern(rest)
    decreases |word|
  {
    if word != [] {
      FuzzyPatternKeepsWord(word[1..], rest);
      assert (word + rest)[1..] == word[1..] + rest;
    } else {
      assert word + rest == rest;
    }
  }

  /** A run of whitespace before a word becomes one gap, whatever its length
      and whichever whitespace characters make it up. */
  lemma FuzzyPatternGap(ws: string, rest: string)
    requires ws != [] && AllSpaces(ws)
    requires rest == [] || !IsSpace(rest[0])
    ensures FuzzyPattern(ws + rest) == ".*" + FuzzyPattern(rest)
  {
    var s := ws + rest;
    SkipGap(s, 0, |ws|);
    assert s[|ws|..] == rest;
  }

  /** Words with a run of whitespace between each two. */
  function Spaced(words: seq<string>, gaps: seq<string>): string
    requires |words| >= 1 && |gaps| == |words| - 1
    decreases |words|
  {
    if |words| == 1 then words[0] else words[0] + gaps[0] + Spaced(words[1..], gaps[1..])
  }

  /** A name made of words separated by runs of whitespace becomes the words
      joined by `.*`: "JUAN  DELA\tCRUZ" is matched as "JUAN.*DELA.*CRUZ". */
  lemma {:induction false} FuzzyPatternOfWords(words: seq<string>, gaps: seq<string>)
    requires |words| >= 1 && |gaps| == |words| - 1
    requires forall k :: 0 <= k < |words| ==> words[k] != [] && SpaceFree(words[k])
    requires forall k :: 0 <= k < |gaps| ==> gaps[k] != [] && AllSpaces(gaps[k])
    ensures FuzzyPattern(Spaced(words, gaps)) == Join(words, ".*")
    decreases |words|
  {
    if |words| == 1 {
      FuzzyPatternSpaceFree(words[0]);
    } else {
      var rest := Spaced(words[1..], gaps[1..]);
      FuzzyPatternOfWords(words[1..], gaps[1..]);
      SpacedHead(words[1..], gaps[1..]);
      FuzzyPatternGap(gaps[0], rest);
      FuzzyPatternKeepsWord(words[0], gaps[0] + rest);
      assert Spaced(words, gaps) == words[0] + (gaps[0] + rest);
      JoinCons(words, ".*");
    }
  }

  /** Spaced non-empty words start with the first word's first character. */
  lemma SpacedHead(words: seq<string>, gaps: seq<string>)
    requires |words| >= 1 && |gaps| == |words| - 1 && words[0] != []
    ensures Spaced(words, gaps) != [] && Spaced(words, gaps)[0] == words[0][0]
  {
  }

  /** A join of several words is the first word, the separator and the join of the rest. */
  lemma JoinCons(words: seq<string>, sep: string)
    requires |words| >= 2
    ensures Join(words, sep) == words[0] + (sep + Join(words[1..], sep))
  {
  }

  /** A name without whitespace is its own pattern. */
  lemma FuzzyPatternSpaceFree(name: string)
    requires SpaceFree(name)
    ensures FuzzyPattern(name) == name
  {
    FuzzyPatternKeepsWord(name, []);
    assert name + [] == name;
  }

  /** The `instructorName` field of the preview: "last, first middle ". */
  function DisplayName(r: InstructorRecord): (s: string) {
    r.lastName + ", " + r.firstName + " " + r.middleName + " "
  }

  /** The first label of the text, in any case, followed by any whitespace
      (newlines included) and a value on one line, declares that value,
      trimmed and upper-cased. */
  lemma NameAfterLabel(pre: string, marker: string, ws: string, value: string, rest: string)
    requires forall p :: 0 <= p < |pre| ==> LabelAt(pre + marker + ws + value + rest, p).None?
    requires EqualsIgnoreCase(marker, NameLabel) && AllSpaces(ws)
    requires value != [] && !IsSpace(value[0])
    requires forall k :: 0 <= k < |value| ==> !IsLineTerminator(value[k])
    requires rest == [] || IsLineTerminator(rest[0])
    ensures InstructorName(pre + marker + ws + value + rest) == ToUpper(Trim(value))
  {
    var text := pre + marker + ws + value + rest;
    var a := |pre| + |NameLabel|;
    assert text == pre + marker + (ws + value + rest);
    LabelFirst(pre, marker, ws + value + rest);
    ValueCaptured(text, a, ws, value, rest);
  }

  /** A label with no earlier one is the leftmost match. */
  lemma LabelFirst(pre: string, marker: string, tail: string)
    requires forall p :: 0 <= p < |pre| ==> LabelAt(pre + marker + tail, p).None?
    requires EqualsIgnoreCase(marker, NameLabel)
    ensures FirstMatch(pre + marker + tail, 0, LabelAt) == Some((|pre|, |pre| + |NameLabel|))
  {
    var text := pre + marker + tail;
    assert |ToUpper(marker)| == |marker|;
    assert text[|pre|..|pre| + |marker|] == marker;
    assert LabelAt(text, |pre|) == Some(|pre| + |NameLabel|);
  }

  /** Whitespace, then a value on one line, is captured as the value. */
  lemma ValueCaptured(text: string, a: nat, ws: string, value: string, rest: string)
    requires a <= |text| && text[a..] == ws + value + rest && AllSpaces(ws)
    requires value != [] && !IsSpace(value[0])
    requires forall k :: 0 <= k < |value| ==> !IsLineTerminator(value[k])
    requires rest == [] || IsLineTerminator(rest[0])
    ensures CaptureAfter(text, a) == value
  {
    var b := a + |ws|;
    var e := b + |value|;
    assert forall k :: a <= k < b ==> text[k] == text[a..][k - a] == ws[k - a];
    assert forall k :: b <= k < e ==> text[k] == text[a..][k - a] == value[k - b];
    assert text[b..e] == value;
    assert e == |text| || text[e] == text[a..][e - a] == rest[0];
    assert CapturedFrom(text, a, b, value);
    var q :| CapturedFrom(text, a, q, CaptureAfter(text, a));
    CapturedFromUnique(text, a, b, value, q, CaptureAfter(text, a));
  }

  /** `LineEnd` stops at the first line terminator. */
  lemma LineEndAt(s: string, from: nat, e: nat)
    requires from <= e <= |s|
    requires forall k :: from <= k < e ==> !IsLineTerminator(s[k])
    requires e == |s| || IsLineTerminator(s[e])
    ensures LineEnd(s, from) == e
    decreases e - from
  {
    if from < e {
      LineEndAt(s, from + 1, e);
    }
  }

  /** A value already trimmed is declared as it is written, upper-cased. */
  lemma NameAtStartTrimmed(marker: string, value: string, rest: string)
    requires EqualsIgnoreCase(marker, NameLabel)
    requires value != [] && IsTrimmed(value)
    requires forall k :: 0 <= k < |value| ==> !IsLineTerminator(value[k])
    requires rest == [] || IsLineTerminator(rest[0])
    ensures InstructorName(marker + " " + value + rest) == ToUpper(value)
  {
    assert [] + marker + " " + value + rest == marker + " " + value + rest;
    NameAfterLabel([], marker, " ", value, rest);
    TrimTrimmed(value);
  }

  lemma ExampleNameUpper()
    ensures ToUpper("Juan Dela Cruz") == "JUAN DELA CRUZ"
  {
    var name := "Juan Dela Cruz";
    var upper := ToUpper(name);
    assert |upper| == 14;
    assert upper[0] == 'J' && upper[1] == 'U' && upper[2] == 'A' && upper[3] == 'N' && upper[4] == ' ';
    assert upper[5] == 'D' && upper[6] == 'E' && upper[7] == 'L' && upper[8] == 'A' && upper[9] == ' ';
    assert upper[10] == 'C' && upper[11] == 'R' && upper[12] == 'U' && upper[13] == 'Z';
  }

  /** The declared name as the documents write it. */
  lemma NameExample(rest: string)
    requires rest == [] || IsLineTerminator(rest[0])
    ensures InstructorName("Name of Instructor: Juan Dela Cruz" + rest) == "JUAN DELA CRUZ"
  {
    assert "Name of Instructor: Juan Dela Cruz" + rest == NameLabel + " " + "Juan Dela Cruz" + rest;
    NameAtStartTrimmed(NameLabel, "Juan Dela Cruz", rest);
    ExampleNameUpper();
  }

  /** The pattern the directory is queried with for that name. */
  lemma PatternExample()
    ensures FuzzyPattern("JUAN DELA CRUZ") == "JUAN.*DELA.*CRUZ"
  {
    assert Spaced(["JUAN", "DELA", "CRUZ"], [" ", " "]) == "JUAN DELA CRUZ";
    assert Join(["JUAN", "DELA", "CRUZ"], ".*") == "JUAN.*DELA.*CRUZ";
    FuzzyPatternOfWords(["JUAN", "DELA", "CRUZ"], [" ", " "]);
  }
}
