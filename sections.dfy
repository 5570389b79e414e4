/** The section resolver of the teaching-load parser: how a section label is
    split into the query sent to the section directory. */
module Sections {
  import opened Wrappers
  import opened Strings

  /** A class section of the directory; `displaySection` is built from it. */
  datatype SectionRecord = SectionRecord(id: string, course: string, section: string, block: string)

  /** The filter of `Section.findOne`: `course` compared as a case-insensitive
      pattern, `section` and `block` by equality. An absent character is the
      `undefined` of indexing past the end of the label's second token. */
  datatype SectionQuery = SectionQuery(coursePattern: string, level: Option<char>, block: Option<char>)

  /** The section directory's `findOne`, left abstract. */
  type SectionDirectory = SectionQuery -> Option<SectionRecord>

  /** `const [courseCodePart, sectionBlock] = label.split(" ")` and the first
      two characters of `sectionBlock`. */
  function SectionQueryOf(sectionLabel: string): (q: SectionQuery) {
    var parts := Split(sectionLabel, ' ');
    var blockToken := if |parts| > 1 then parts[1] else "";
    SectionQuery(
      parts[0],
      if |blockToken| > 0 then Some(blockToken[0]) else None,
      if |blockToken| > 1 then Some(blockToken[1]) else None)
  }

  /** A label "prefix token..." gives the prefix as pattern, and the level and
      block letter are the first two characters of the second token. */
  lemma QueryOfTwoTokens(prefix: string, token: string, tail: string)
    requires ' ' !in prefix && ' ' !in token
    requires tail == [] || tail[0] == ' '
    ensures SectionQueryOf(prefix + " " + token + tail) == SectionQuery(
      prefix,
      if |token| > 0 then Some(token[0]) else None,
      if |token| > 1 then Some(token[1]) else None)
  {
    assert prefix + " " + token + tail == prefix + [' '] + (token + tail);
    SplitAfter(prefix, ' ', token + tail);
    SplitFirst(token, ' ', tail);
  }

  /** A label without a space is all pattern, with neither level nor block. */
  lemma QueryOfOneToken(sectionLabel: string)
    requires ' ' !in sectionLabel
    ensures SectionQueryOf(sectionLabel) == SectionQuery(sectionLabel, None, None)
  {
    assert IndexOf(sectionLabel, ' ', 0) == None;
  }

  /** The label of the documents' example section. */
  lemma QueryExample()
    ensures SectionQueryOf("IT 2A") == SectionQuery("IT", Some('2'), Some('A'))
    ensures SectionQueryOf("Unknown") == SectionQuery("Unknown", None, None)
  {
    QueryOfTwoTokens("IT", "2A", "");
    assert "IT" + " " + "2A" + "" == "IT 2A";
    QueryOfOneToken("Unknown");
  }

  /** Whether a record satisfies a query: its course contains the pattern
      ignoring case, and its section and block are the query's characters.
      A missing character matches no record. */
  predicate Satisfies(r: SectionRecord, q: SectionQuery) {
    && ContainsIgnoreCase(r.course, q.coursePattern)
    && (match q.level case Some(c) => r.section == [c] case None => false)
    && (match q.block case Some(c) => r.block == [c] case None => false)
  }

  /** A directory held as a list of records, answering with the first record
      that satisfies the query. */
  function FindSection(records: seq<SectionRecord>, q: SectionQuery): (r: Option<SectionRecord>)
    ensures r.Some? ==> r.value in records && Satisfies(r.value, q)
    ensures r.None? <==> forall k :: 0 <= k < |records| ==> !Satisfies(records[k], q)
    ensures r.Some? ==>
      exists k :: (0 <= k < |records| && records[k] == r.value
        && forall j :: 0 <= j < k ==> !Satisfies(records[j], q))
    decreases |records|
  {
    if records == [] then None
    else if Satisfies(records[0], q) then Some(records[0])
    else
      var r := FindSection(records[1..], q);
      assert forall k :: 1 <= k < |records| ==> records[k] == records[1..][k - 1];
      if r.Some? then
        var k :| 0 <= k < |records[1..]| && records[1..][k] == r.value
          && forall j :: 0 <= j < k ==> !Satisfies(records[1..][j], q);
        assert records[k + 1] == r.value;
        r
      else r
  }
}
