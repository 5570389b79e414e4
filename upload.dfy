/** The `/uploadScheduleDocument` handler once the document's text has been
    extracted: the semester window, the instructor lookup that can stop the
    request, the line normaliser and the scan. */
module Upload {
  import opened Wrappers
  import opened Strings
  import opened Semester
  import opened Instructor
  import opened Lines
  import opened Sections
  import opened Scanner

  /** The preview the handler answers with: the drafts and the header fields. */
  datatype Preview = Preview(data: seq<Draft>, instructorName: string, academicYear: string, semester: string)

  /** The handler's refusal once the text is read: status 404. */
  datatype UploadError = InstructorNotFound

  /** What the scan reads from the document and the directories. */
  function EnvOf(text: string, found: InstructorRecord, sections: SectionDirectory): Env {
    var w := WindowOf(FindSemester(text));
    Env(found.id, w.startDate, w.endDate, sections)
  }

  /** The preview of a document, or the 404 when the directory has no
      instructor matching the declared name. */
  function ParseSpec(text: string, users: InstructorDirectory, sections: SectionDirectory): Result<Preview, UploadError> {
    match users(FuzzyPattern(InstructorName(text)))
    case None => Failure(InstructorNotFound)
    case Some(found) =>
      Success(Preview(Drafts(NormalizeLines(text), EnvOf(text, found, sections)),
                      DisplayName(found),
                      AcademicYear(FindSemester(text)),
                      WindowOf(FindSemester(text)).semester))
  }

  /** The handler, step by step, in its own order: semester, instructor,
      lines, scan. */
  method ParseDocument(text: string, users: InstructorDirectory, sections: SectionDirectory)
    returns (r: Result<Preview, UploadError>)
    ensures r == ParseSpec(text, users, sections)
  {
    var window := ExtractSemester(text);
    var semAyMatch := FindSemester(text);
    var instructorFullName := InstructorName(text);
    var instructor := users(FuzzyPattern(instructorFullName));
    if instructor.None? {
      return Failure(InstructorNotFound);
    }
    var lines := NormalizeLines(text);
    var env := Env(instructor.value.id, window.startDate, window.endDate, sections);
    var schedules := ScanLines(lines, env);
    r := Success(Preview(schedules, DisplayName(instructor.value), AcademicYear(semAyMatch), window.semester));
  }

  /** The request fails exactly when the instructor lookup finds nobody,
      and then no draft exists. */
  lemma NotFoundIffNoInstructor(text: string, users: InstructorDirectory, sections: SectionDirectory)
    ensures ParseSpec(text, users, sections).Failure? <==> users(FuzzyPattern(InstructorName(text))).None?
    ensures ParseSpec(text, users, sections).Failure? ==> ParseSpec(text, users, sections).error == InstructorNotFound
  {
  }

  /** Every draft of a preview names the instructor found and carries the
      document's semester dates and the "TBD" room; there is at most one
      draft per time line, and exactly one for each time line whose
      section is found. */
  lemma PreviewDrafts(text: string, users: InstructorDirectory, sections: SectionDirectory)
    requires ParseSpec(text, users, sections).Success?
    ensures var found := users(FuzzyPattern(InstructorName(text))).value;
      var w := WindowOf(FindSemester(text));
      var data := ParseSpec(text, users, sections).value.data;
      && (forall d :: d in data ==>
            d.instructor == found.id && d.room == "TBD"
            && d.semesterStartDate == w.startDate && d.semesterEndDate == w.endDate)
      && |data| <= SlotLineCount(NormalizeLines(text))
      && |data| + UnresolvedCount(NormalizeLines(text), EnvOf(text, found, sections))
         == SlotLineCount(NormalizeLines(text))
  {
    var found := users(FuzzyPattern(InstructorName(text))).value;
    var lines := NormalizeLines(text);
    var env := EnvOf(text, found, sections);
    DraftFields(lines, env);
    DraftCount(lines, env);
  }

  /** A document without the instructor label declares the empty name, and
      the pattern sent to the directory is empty: it does not stop the
      request by itself, only the directory's answer does. */
  lemma NoLabelEmptyPattern(text: string)
    requires forall p :: 0 <= p <= |text| ==> LabelAt(text, p).None?
    ensures InstructorName(text) == "" && FuzzyPattern(InstructorName(text)) == ""
  {
    var r := FirstMatch(text, 0, LabelAt);
    assert r.None?;
  }

  /** The header fields of a preview: the found instructor as
      "last, first middle ", the academic year as captured and the
      upper-cased semester ordinal (or "TBD"). */
  lemma PreviewHeader(text: string, users: InstructorDirectory, sections: SectionDirectory)
    requires ParseSpec(text, users, sections).Success?
    ensures var found := users(FuzzyPattern(InstructorName(text))).value;
      var p := ParseSpec(text, users, sections).value;
      && p.instructorName == found.lastName + ", " + found.firstName + " " + found.middleName + " "
      && HasNoLowerAscii(p.semester)
      && (FindSemester(text).None? ==> p.semester == "TBD" && p.academicYear == "undefined-undefined")
      && (FindSemester(text).Some? ==>
            p.academicYear == FindSemester(text).value.startYear + "-" + FindSemester(text).value.endYear)
  {
    SemesterUpperCase(text);
  }
}
