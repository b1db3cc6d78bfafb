/** The submit form (src/Components/submit.ts): a draft item, the set of
    fields currently known to be invalid, per-field input handling, the
    two-level submit guard, Reset, the help toggle, and the two semester
    options offered for the current date. */
module SubmitComponent {
  import opened JsNumbers
  import opened Utils

  // ---------------------------------------------------------------------
  // Semester options

  datatype Term = Summer | Winter

  /** A semester: its term and the (two-digit) year it starts in. */
  datatype SemesterId = SemesterId(year: int, term: Term)

  /** The semester that starts right after `s`: the winter term follows the
      summer term of the same year, the next summer term follows a winter term. */
  function Following(s: SemesterId): SemesterId {
    match s.term
    case Summer => SemesterId(s.year, Winter)
    case Winter => SemesterId(s.year + 1, Summer)
  }

  /** The semester the menu treats as current in month `month` (0 = January)
      of a year whose last two digits are `yy`: the winter term of the year
      before until April, the summer term from May to October, the winter
      term of this year in November and December. */
  function Current(month: int, yy: int): SemesterId {
    if month < 4 then SemesterId(yy - 1, Winter)
    else if month < 10 then SemesterId(yy, Summer)
    else SemesterId(yy, Winter)
  }

  function TermSuffix(t: Term): string {
    match t
    case Summer => "SS"
    case Winter => "WS"
  }

  /** A semester label as the menu prints it, `year.toString()` + `SS`/`WS`. */
  function Label(s: SemesterId): string {
    IntToString(s.year) + TermSuffix(s.term)
  }

  /** The two options of `semesterMenu` for month index `month` and full year
      `fullYear`: the current semester and the one after it. */
  function SemesterOptions(month: int, fullYear: int): (opts: (string, string))
    ensures var cur := Current(month, JsRemainder(fullYear, 100));
            opts == (Label(cur), Label(Following(cur)))
  {
    var year := JsRemainder(fullYear, 100);
    if month < 4 then
      (IntToString(year - 1) + "WS", IntToString(year) + "SS")
    else if month >= 4 && month < 10 then
      (IntToString(year) + "SS", IntToString(year) + "WS")
    else
      (IntToString(year) + "WS", IntToString(year + 1) + "SS")
  }

  /** For two-digit years 11 to 98 both options match the semester pattern,
      so both can be picked, and the two are different. */
  lemma OptionsMatchPattern(month: int, fullYear: int)
    requires 11 <= JsRemainder(fullYear, 100) <= 98
    ensures IsSemester(SemesterOptions(month, fullYear).0)
    ensures IsSemester(SemesterOptions(month, fullYear).1)
    ensures SemesterOptions(month, fullYear).0 != SemesterOptions(month, fullYear).1
  {
  }

  /** The placeholder entry of the menu never passes the pattern. */
  lemma PlaceholderRejected()
    ensures !IsSemester("0")
  {
  }

  /** Outside years 10 to 99 the printed labels lose the two-digit shape:
      November 2099 offers "100SS", January 2100 offers "-1WS" and May 2005
      offers "5SS", none of which the semester pattern accepts. */
  lemma UnpaddedOptionsFail()
    ensures SemesterOptions(10, 2099).1 == "100SS" && !IsSemester("100SS")
    ensures SemesterOptions(0, 2100).0 == "-1WS" && !IsSemester("-1WS")
    ensures SemesterOptions(4, 2005).0 == "5SS" && !IsSemester("5SS")
  {
  }

  /** The year of a semester as two digits, zero-padded, modulo 100. */
  function TwoDigits(n: int): (s: string)
    ensures |s| == 2 && IsDigit(s[0]) && IsDigit(s[1])
    ensures DigitValue(s[0]) * 10 + DigitValue(s[1]) == n % 100
  {
    [DigitChar(n % 100 / 10), DigitChar(n % 10)]
  }

  function PaddedLabel(s: SemesterId): string {
    TwoDigits(s.year) + TermSuffix(s.term)
  }

  /** The options with zero-padded two-digit years. */
  function PaddedSemesterOptions(month: int, fullYear: int): (string, string) {
    var cur := Current(month, JsRemainder(fullYear, 100));
    (PaddedLabel(cur), PaddedLabel(Following(cur)))
  }

  /** For a two-digit year the padded label is the printed one. */
  lemma PaddedIsPrinted(s: SemesterId)
    requires 10 <= s.year < 100
    ensures PaddedLabel(s) == Label(s)
  {
    TwoDigitDecimal(s.year);
    assert s.year % 100 == s.year;
  }

  /** With padded years both options match the pattern in every month of
      every year, and for two-digit years 11 to 98 they are the printed ones. */
  lemma PaddedOptionsAlwaysMatch(month: int, fullYear: int)
    ensures IsSemester(PaddedSemesterOptions(month, fullYear).0)
    ensures IsSemester(PaddedSemesterOptions(month, fullYear).1)
    ensures 11 <= JsRemainder(fullYear, 100) <= 98 ==>
              PaddedSemesterOptions(month, fullYear) == SemesterOptions(month, fullYear)
  {
    var cur := Current(month, JsRemainder(fullYear, 100));
    if 11 <= JsRemainder(fullYear, 100) <= 98 {
      PaddedIsPrinted(cur);
      PaddedIsPrinted(Following(cur));
    }
  }

  /** The semester pattern accepts exactly the padded labels. */
  lemma SemesterPatternIsPaddedLabel(s: string)
    ensures IsSemester(s) <==> exists sem: SemesterId :: 0 <= sem.year < 100 && s == PaddedLabel(sem)
  {
    if IsSemester(s) {
      var y := DigitValue(s[0]) * 10 + DigitValue(s[1]);
      var sem := SemesterId(y, if s[2] == 'W' then Winter else Summer);
      assert s == PaddedLabel(sem);
    }
  }

  // ---------------------------------------------------------------------
  // The form

  /** The field named by an input's `name` attribute. */
  function FieldNamed(name: string): Option<CheckItem> {
    if name == "semester" then Some(Semester)
    else if name == "course" then Some(CourseName)
    else if name == "username" then Some(UserName)
    else if name == "contact" then Some(Contact)
    else None
  }

  /** What `submit` did: nothing while a field is marked invalid, a refusal
      when the draft fails `valid`, or a POST of the draft. */
  datatype SubmitOutcome = Blocked | Rejected | Posted(payload: Record)

  class Submit {
    var toggleHelp: bool
    var checklist: set<CheckItem>
    const data: Item

    /** Every field not marked invalid holds a value that matches its pattern. */
    ghost predicate Consistent()
      reads this, data
    {
      forall f :: f !in checklist ==> Matches(f, data.Value().Field(f))
    }

    /** `isValid()`: no field is marked invalid. */
    predicate IsValid()
      reads this
    {
      |checklist| == 0
    }

    constructor ()
      ensures toggleHelp && checklist == AllFields
      ensures fresh(data) && data.Value() == Record("", "", "", "", 0)
      ensures !IsValid() && Consistent()
    {
      toggleHelp := true;
      checklist := {Semester, Contact, CourseName, UserName};
      data := new Item("", "", "", "", 0);
    }

    /** `handleInput`: for a known field, unmark it and store the value when
        the value matches the field's pattern, mark it otherwise; any other
        name changes nothing. */
    method HandleInput(name: string, value: string)
      modifies this, data
      ensures toggleHelp == old(toggleHelp)
      ensures match FieldNamed(name)
        case None => checklist == old(checklist) && data.Value() == old(data.Value())
        case Some(f) =>
          if Matches(f, value) then
            checklist == old(checklist) - {f} && data.Value() == old(data.Value()).WithField(f, value)
          else
            checklist == old(checklist) + {f} && data.Value() == old(data.Value())
      ensures old(Consistent()) ==> Consistent()
    {
      if name == "semester" {
        if IsSemester(value) {
          checklist := checklist - {Semester};
          data.semester := value;
        } else {
          checklist := checklist + {Semester};
        }
      } else if name == "course" {
        if IsCourseName(value) {
          checklist := checklist - {CourseName};
          data.courseName := value;
        } else {
          checklist := checklist + {CourseName};
        }
      } else if name == "username" {
        if IsUserName(value) {
          checklist := checklist - {UserName};
          data.userName := value;
        } else {
          checklist := checklist + {UserName};
        }
      } else if name == "contact" {
        if IsContact(value) {
          checklist := checklist - {Contact};
          data.contact := value;
        } else {
          checklist := checklist + {Contact};
        }
      }
    }

    /** `submit`: stamps the draft with `now`, then posts it only when no
        field is marked invalid and the whole draft passes `valid`. */
    method Submit(now: int) returns (outcome: SubmitOutcome)
      modifies data
      ensures data.Value() == old(data.Value()).(createdAt := now)
      ensures !IsValid() ==> outcome == Blocked
      ensures IsValid() && !Valid(data) ==> outcome == Rejected
      ensures IsValid() && Valid(data) ==> outcome == Posted(data.Value())
      ensures outcome.Posted? ==> AllMatch(outcome.payload)
      ensures old(Consistent()) ==> Consistent()
      ensures old(Consistent()) && IsValid() ==> outcome.Posted?
    {
      data.createdAt := now;
      if IsValid() {
        if !Valid(data) {
          return Rejected;
        }
        return Posted(data.Value());
      }
      return Blocked;
    }

    /** `toggle`: shows or hides the help table. */
    method Toggle()
      modifies this
      ensures toggleHelp == !old(toggleHelp) && checklist == old(checklist)
    {
      toggleHelp := !toggleHelp;
    }

    /** Reset: empties the draft but keeps the marks, so with no field marked
        the invariant is lost and only `valid` stops the empty draft. */
    method Clear()
      modifies data
      ensures data.Value() == old(data.Value()).(courseName := "", semester := "", userName := "", contact := "")
      ensures !Valid(data)
      ensures Consistent() <==> checklist == AllFields
    {
      Utils.Clear(data);
      if Consistent() {
        forall f ensures f in checklist && f in AllFields {
          NoPatternMatchesEmpty(f);
        }
        assert checklist == AllFields;
      }
    }
  }
}
