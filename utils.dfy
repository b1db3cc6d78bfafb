/** Field validation and item helpers shared by the list and the submit form
    (src/Scripts/utils.ts): the four field patterns, the whole-item check
    `valid`, the in-place `clear`, the display label `formatCourse`, and the
    validity gate in front of the POST of `submit`. */
module Utils {
  import opened JsNumbers

  datatype Option<T> = None | Some(value: T)

  /** Outcome of a GET whose JSON body is awaited: the parsed body, or a
      rejected promise (network error, HTTP error thrown by `load`). */
  datatype Response<T> = Ok(body: T) | Failed

  /** The arguments of one `load(page, limit)` request. */
  datatype PageQuery = PageQuery(page: int, limit: int)

  /** The four form fields whose validity the submit form tracks. */
  datatype CheckItem = CourseName | UserName | Contact | Semester

  const AllFields: set<CheckItem> := {CourseName, UserName, Contact, Semester}

  /** The field values of an item, as `JSON.stringify` sends them. */
  datatype Record = Record(courseName: string, semester: string, userName: string,
                           contact: string, createdAt: int)
  {
    function Field(f: CheckItem): string {
      match f
      case CourseName => courseName
      case UserName => userName
      case Contact => contact
      case Semester => semester
    }

    /** This record with field `f` replaced by `v`, every other field kept. */
    function WithField(f: CheckItem, v: string): (r: Record)
      ensures r.Field(f) == v && r.createdAt == createdAt
      ensures forall g :: g != f ==> r.Field(g) == Field(g)
    {
      match f
      case CourseName => this.(courseName := v)
      case UserName => this.(userName := v)
      case Contact => this.(contact := v)
      case Semester => this.(semester := v)
    }
  }

  /** A listing. It is an object: `clear` and the form update its fields in
      place, and the list view tells two listings apart by identity. */
  class Item {
    var courseName: string
    var semester: string
    var userName: string
    var contact: string
    var createdAt: int

    constructor (courseName: string, semester: string, userName: string,
                 contact: string, createdAt: int)
      ensures Value() == Record(courseName, semester, userName, contact, createdAt)
    {
      this.courseName := courseName;
      this.semester := semester;
      this.userName := userName;
      this.contact := contact;
      this.createdAt := createdAt;
    }

    function Value(): Record
      reads this
    {
      Record(courseName, semester, userName, contact, createdAt)
    }
  }

  // ---------------------------------------------------------------------
  // Character classes of the patterns

  predicate AsciiLetter(c: char) {
    'A' <= c <= 'Z' || 'a' <= c <= 'z'
  }

  /** Unicode `\p{L}` on the code points up to U+00FF: the ASCII letters,
      the three Latin-1 letters ª µ º, and U+00C0..U+00FF without × and ÷. */
  predicate IsLetter(c: char) {
    || AsciiLetter(c)
    || c == '\U{AA}' || c == '\U{B5}' || c == '\U{BA}'
    || ('\U{C0}' <= c <= '\U{FF}' && c != '\U{D7}' && c != '\U{F7}')
  }

  /** `[\p{L}0-9._]` */
  predicate UserNameChar(c: char) {
    IsLetter(c) || IsDigit(c) || c == '.' || c == '_'
  }

  /** `[\p{L}0-9 ._]` */
  predicate CourseNameChar(c: char) {
    UserNameChar(c) || c == ' '
  }

  /** `[A-Za-z0-9._-]` */
  predicate ContactChar(c: char) {
    AsciiLetter(c) || IsDigit(c) || c == '.' || c == '_' || c == '-'
  }

  // ---------------------------------------------------------------------
  // The four patterns

  /** `userNameRex`, `/^[\p{L}0-9._]{4,12}$/u` */
  predicate IsUserName(s: string)
    ensures IsUserName(s) ==> 4 <= |s| <= 12 && ' ' !in s && '@' !in s
  {
    4 <= |s| <= 12 && forall i :: 0 <= i < |s| ==> UserNameChar(s[i])
  }

  /** `courseNameRex`, `/^[\p{L}0-9 ._]{2,30}$/u` */
  predicate IsCourseName(s: string)
    ensures IsCourseName(s) ==> 2 <= |s| <= 30 && '@' !in s && ']' !in s
  {
    2 <= |s| <= 30 && forall i :: 0 <= i < |s| ==> CourseNameChar(s[i])
  }

  /** `emailRex`, `/^[A-Za-z0-9._-]+@[A-Za-z0-9._-]+$/`: a non-empty run,
      one `@`, a non-empty run. */
  predicate IsContact(s: string) {
    exists k :: 0 < k < |s| - 1 && s[k] == '@'
      && (forall i :: 0 <= i < k ==> ContactChar(s[i]))
      && (forall i :: k < i < |s| ==> ContactChar(s[i]))
  }

  /** `semesterRex`, `/^[0-9][0-9][WS]S$/` */
  predicate IsSemester(s: string)
    ensures IsSemester(s) ==> |s| == 4 && ']' !in s && s != "0"
  {
    |s| == 4 && IsDigit(s[0]) && IsDigit(s[1]) && (s[2] == 'W' || s[2] == 'S') && s[3] == 'S'
  }

  /** The pattern that guards field `f`. */
  predicate Matches(f: CheckItem, s: string) {
    match f
    case CourseName => IsCourseName(s)
    case UserName => IsUserName(s)
    case Contact => IsContact(s)
    case Semester => IsSemester(s)
  }

  /** Every field of `r` matches its pattern, in no particular order. */
  predicate AllMatch(r: Record) {
    forall f :: Matches(f, r.Field(f))
  }

  /** The empty string matches none of the four patterns. */
  lemma NoPatternMatchesEmpty(f: CheckItem)
    ensures !Matches(f, "")
  {
  }

  /** The record check is the conjunction of the four pattern tests. */
  lemma {:induction false} AllMatchIff(r: Record)
    ensures AllMatch(r) <==>
      IsUserName(r.userName) && IsCourseName(r.courseName) && IsContact(r.contact) && IsSemester(r.semester)
  {
    if IsUserName(r.userName) && IsCourseName(r.courseName) && IsContact(r.contact) && IsSemester(r.semester) {
      forall f ensures Matches(f, r.Field(f)) {
        match f
        case CourseName =>
        case UserName =>
        case Contact =>
        case Semester =>
      }
    }
    if AllMatch(r) {
      assert Matches(UserName, r.Field(UserName)) && Matches(CourseName, r.Field(CourseName));
      assert Matches(Contact, r.Field(Contact)) && Matches(Semester, r.Field(Semester));
    }
  }

  /** A record with an empty field fails the check. */
  lemma EmptyFieldFails(r: Record, f: CheckItem)
    requires r.Field(f) == ""
    ensures !AllMatch(r)
  {
  }

  // ---------------------------------------------------------------------
  // valid, clear, formatCourse, submit

  /** `valid(item)`: tests the user name, the course name, the contact and
      the semester in that order and answers false at the first failure. */
  function Valid(item: Item): (ok: bool)
    reads item
    ensures ok <==> AllMatch(item.Value())
  {
    AllMatchIff(item.Value());
    if !IsUserName(item.userName) then false
    else if !IsCourseName(item.courseName) then false
    else if !IsContact(item.contact) then false
    else IsSemester(item.semester)
  }

  /** `clear(item)`: empties the four fields of `item` in place. */
  method Clear(item: Item)
    modifies item
    ensures item.Value() == old(item.Value()).(courseName := "", semester := "", userName := "", contact := "")
    ensures !Valid(item)
  {
    item.courseName := "";
    item.semester := "";
    item.userName := "";
    item.contact := "";
    EmptyFieldFails(item.Value(), UserName);
  }

  /** `formatCourse(item)`: the display label `[semester]courseName`. */
  function FormatCourse(item: Item): (text: string)
    reads item
    ensures |text| == |item.semester| + |item.courseName| + 2
    ensures text[0] == '[' && text[|item.semester| + 1] == ']'
  {
    "[" + item.semester + "]" + item.courseName
  }

  /** `POST` is issued with the item's fields, or not at all. */
  method Submit(item: Item) returns (ok: bool, post: Option<Record>)
    ensures ok == Valid(item)
    ensures post == if ok then Some(item.Value()) else None
  {
    if !Valid(item) {
      return false, None;
    }
    post := Some(item.Value());
    ok := true;
  }

  // ---------------------------------------------------------------------
  // Reading a label back, and the shape of a contact

  /** The first position of `c` in `s`. */
  function IndexOf(s: string, c: char): (r: Option<nat>)
    ensures r.Some? ==> r.value < |s| && s[r.value] == c && c !in s[..r.value]
    ensures r.None? ==> c !in s
  {
    if |s| == 0 then None
    else if s[0] == c then Some(0)
    else match IndexOf(s[1..], c)
      case None => None
      case Some(k) =>
        assert s[..k + 1] == [s[0]] + s[1..][..k];
        Some(k + 1)
  }

  /** Splits a label `[x]y` at the first `]` into `(x, y)`. */
  function SplitLabel(text: string): Option<(string, string)> {
    if |text| == 0 || text[0] != '[' then None
    else match IndexOf(text[1..], ']')
      case None => None
      case Some(k) => Some((text[1..][..k], text[1..][k + 1..]))
  }

  /** A label built from a semester matching its pattern splits back into
      that semester and the course name. */
  lemma FormatCourseSplits(item: Item)
    requires IsSemester(item.semester)
    ensures SplitLabel(FormatCourse(item)) == Some((item.semester, item.courseName))
  {
    var sem, name := item.semester, item.courseName;
    var rest := FormatCourse(item)[1..];
    assert rest == sem + "]" + name;
    assert rest[|sem|] == ']';
    assert rest[..|sem|] == sem && rest[|sem| + 1..] == name;
  }

  /** How often `c` occurs in `s`. */
  function Occurrences(s: string, c: char): nat {
    if |s| == 0 then 0 else (if s[0] == c then 1 else 0) + Occurrences(s[1..], c)
  }

  lemma {:induction false} OccurrencesAppend(a: string, b: string, c: char)
    ensures Occurrences(a + b, c) == Occurrences(a, c) + Occurrences(b, c)
  {
    if |a| > 0 {
      assert (a + b)[0] == a[0] && (a + b)[1..] == a[1..] + b;
      OccurrencesAppend(a[1..], b, c);
    } else {
      assert a + b == b;
    }
  }

  lemma {:induction false} OccurrencesZero(s: string, c: char)
    ensures Occurrences(s, c) == 0 <==> c !in s
  {
    if |s| > 0 {
      OccurrencesZero(s[1..], c);
      assert s == [s[0]] + s[1..];
    }
  }

  /** A contact in the shape of the pattern, described by its `@` signs. */
  predicate OneAtInside(s: string) {
    && |s| >= 3
    && Occurrences(s, '@') == 1
    && s[0] != '@' && s[|s| - 1] != '@'
    && forall i :: 0 <= i < |s| && s[i] != '@' ==> ContactChar(s[i])
  }

  /** A contact matches its pattern exactly when it has one `@`, neither
      first nor last, and every other character is in `[A-Za-z0-9._-]`. */
  lemma ContactShape(s: string)
    ensures IsContact(s) <==> OneAtInside(s)
  {
    if IsContact(s) {
      var k :| 0 < k < |s| - 1 && s[k] == '@'
        && (forall i :: 0 <= i < k ==> ContactChar(s[i]))
        && (forall i :: k < i < |s| ==> ContactChar(s[i]));
      SplitOccurrences(s, k);
      OccurrencesZero(s[..k], '@');
      OccurrencesZero(s[k + 1..], '@');
    }
    if OneAtInside(s) {
      OccurrencesZero(s, '@');
      match IndexOf(s, '@')
      case None =>
      case Some(k) =>
        SplitOccurrences(s, k);
        OccurrencesZero(s[..k], '@');
        OccurrencesZero(s[k + 1..], '@');
        assert forall i :: k < i < |s| ==> s[i] == s[k + 1..][i - k - 1];
        assert forall i :: 0 <= i < k ==> s[i] == s[..k][i];
        assert 0 < k < |s| - 1;
    }
  }

  lemma SplitOccurrences(s: string, k: nat)
    requires k < |s|
    ensures Occurrences(s, s[k]) == Occurrences(s[..k], s[k]) + 1 + Occurrences(s[k + 1..], s[k])
  {
    assert s == s[..k] + ([s[k]] + s[k + 1..]);
    OccurrencesAppend(s[..k], [s[k]] + s[k + 1..], s[k]);
    OccurrencesAppend([s[k]], s[k + 1..], s[k]);
  }

  /** A valid contact has exactly one `@`. */
  lemma ContactHasOneAt(s: string)
    requires IsContact(s)
    ensures Occurrences(s, '@') == 1
  {
    ContactShape(s);
  }
}
