/** The requirement store (src/prereqsolver/PrereqData.java): the rows of
    the tab-separated file kept as a course-to-token-string map, a parse
    cache filled on demand, and the walk that collects the course leaves of
    a tree. The file is given as its sequence of lines. */
module PrereqStore {
  import opened Wrappers
  import opened Text
  import opened Requirements
  import opened TokenStringParsing
  import opened Catalogs

  // ---------------------------------------------------------------------
  // `String.split("\t")`

  /** The pieces between tab characters, empty ones included. */
  function Pieces(s: string): (r: seq<string>)
    ensures |r| >= 1
    decreases |s|
  {
    if s == [] then [""]
    else
      var rest := Pieces(s[1..]);
      if s[0] == '\t' then [""] + rest else [[s[0]] + rest[0]] + rest[1..]
  }

  /** The pieces put back together, a tab between each two. */
  function Join(pieces: seq<string>): string
    requires |pieces| >= 1
    decreases |pieces|
  {
    if |pieces| == 1 then pieces[0] else pieces[0] + "\t" + Join(pieces[1..])
  }

  predicate TabFree(s: string) {
    '\t' !in s
  }

  /** Splitting loses nothing: the pieces hold no tab and join back to the
      line. */
  lemma {:induction false} PiecesJoin(s: string)
    ensures Join(Pieces(s)) == s
    ensures forall k :: 0 <= k < |Pieces(s)| ==> TabFree(Pieces(s)[k])
    decreases |s|
  {
    if s != [] {
      var rest := Pieces(s[1..]);
      PiecesJoin(s[1..]);
      if s[0] == '\t' {
        assert Pieces(s) == [""] + rest;
        assert Join(Pieces(s)) == "" + "\t" + Join(rest);
        assert s == [s[0]] + s[1..];
      } else {
        var p := Pieces(s);
        assert p == [[s[0]] + rest[0]] + rest[1..];
        if |rest| == 1 {
          assert Join(p) == [s[0]] + rest[0];
        } else {
          assert rest == [rest[0]] + rest[1..];
          assert Join(rest) == rest[0] + "\t" + Join(rest[1..]);
          assert p[1..] == rest[1..];
          assert Join(p) == ([s[0]] + rest[0]) + "\t" + Join(rest[1..]);
        }
        assert s == [s[0]] + s[1..];
        forall k | 0 <= k < |p|
          ensures TabFree(p[k])
        {
          if k == 0 {
            assert TabFree(rest[0]);
          } else {
            assert p[k] == rest[k];
          }
        }
      }
    }
  }

  /** A tab-free word in front of a string joins the string's first piece. */
  lemma {:induction false} PiecesAfterWord(w: string, rest: string)
    requires TabFree(w)
    ensures Pieces(w + rest) == [w + Pieces(rest)[0]] + Pieces(rest)[1..]
    decreases |w|
  {
    if w != [] {
      var s := w + rest;
      var p := Pieces(rest);
      assert s[0] == w[0] && s[1..] == w[1..] + rest;
      PiecesAfterWord(w[1..], rest);
      var tail := Pieces(s[1..]);
      assert tail == [w[1..] + p[0]] + p[1..];
      assert Pieces(s) == [[s[0]] + tail[0]] + tail[1..];
      assert [w[0]] + (w[1..] + p[0]) == w + p[0];
    } else {
      var p := Pieces(rest);
      assert w + rest == rest;
      assert w + p[0] == p[0];
      assert p == [p[0]] + p[1..];
    }
  }

  /** Joining tab-free fields and splitting again gives the fields back. */
  lemma {:induction false} JoinPieces(fields: seq<string>)
    requires |fields| >= 1 && forall k :: 0 <= k < |fields| ==> TabFree(fields[k])
    ensures Pieces(Join(fields)) == fields
    decreases |fields|
  {
    if |fields| == 1 {
      PiecesAfterWord(fields[0], "");
      assert fields[0] + "" == fields[0];
    } else {
      var tail := Join(fields[1..]);
      JoinPieces(fields[1..]);
      assert Join(fields) == fields[0] + ("\t" + tail);
      PiecesAfterWord(fields[0], "\t" + tail);
      assert ("\t" + tail)[1..] == tail;
      assert Pieces("\t" + tail) == [""] + fields[1..];
      assert fields[0] + "" == fields[0];
    }
  }

  /** The list without its trailing empty strings. */
  function DropTrailingEmpty(pieces: seq<string>): (r: seq<string>)
    ensures |r| <= |pieces| && r == pieces[..|r|]
    ensures r == [] || r[|r| - 1] != ""
    ensures forall k :: |r| <= k < |pieces| ==> pieces[k] == ""
    decreases |pieces|
  {
    if pieces != [] && pieces[|pieces| - 1] == "" then DropTrailingEmpty(pieces[..|pieces| - 1]) else pieces
  }

  /** `line.split("\t")`: the line itself when it holds no tab, otherwise
      the pieces without the trailing empty ones. */
  function SplitTabs(line: string): seq<string> {
    if TabFree(line) then [line] else DropTrailingEmpty(Pieces(line))
  }

  /** Of a line made of at least four tab-free fields whose fourth is not
      empty, the split yields those four fields first. */
  lemma {:induction false} SplitFields(fields: seq<string>)
    requires |fields| >= 4 && fields[3] != ""
    requires forall k :: 0 <= k < |fields| ==> TabFree(fields[k])
    ensures var parts := SplitTabs(Join(fields)); |parts| >= 4 && parts[..4] == fields[..4]
  {
    var line := Join(fields);
    JoinPieces(fields);
    assert line == fields[0] + "\t" + Join(fields[1..]);
    assert line[|fields[0]|] == '\t';
    var parts := DropTrailingEmpty(fields);
    assert parts[..4] == fields[..4];
  }

  // ---------------------------------------------------------------------
  // loadTSV

  datatype Row = Row(course: string, tokens: string)

  /** What one data line contributes: nothing when it has fewer than four
      fields, when its trimmed status does not start with "OK" or when its
      trimmed token string is empty; else the trimmed course code and token
      string. */
  function RowOf(line: string): (r: Option<Row>)
    ensures r.Some? ==> r.value.tokens != [] && Trim(r.value.tokens) == r.value.tokens
  {
    var parts := SplitTabs(line);
    if |parts| < 4 then None
    else
      var courseCode, tokens, status := Trim(parts[0]), Trim(parts[2]), Trim(parts[3]);
      if StartsWith(status, "OK") && tokens != [] then
        TrimmedIsFixed(tokens);
        Some(Row(courseCode, tokens))
      else None
  }

  /** What each line contributes. */
  function Rows(lines: seq<string>): (rows: seq<Option<Row>>)
    ensures |rows| == |lines|
    ensures forall i :: 0 <= i < |lines| ==> rows[i] == RowOf(lines[i])
  {
    seq(|lines|, i requires 0 <= i < |lines| => RowOf(lines[i]))
  }

  /** The fields of one data line, as the loading loop reads them. */
  method ReadRow(line: string) returns (row: Option<Row>)
    ensures row == RowOf(line)
  {
    var parts := SplitTabs(line);
    if |parts| < 4 {
      return None;
    }
    var courseCode := Trim(parts[0]);
    var tokens := Trim(parts[2]);
    var status := Trim(parts[3]);
    if StartsWith(status, "OK") && tokens != [] {
      return Some(Row(courseCode, tokens));
    }
    return None;
  }

  /** The token strings loaded from the first `n` rows; row 0 is the
      header and a later row for the same course replaces an earlier one. */
  function Loaded(rows: seq<Option<Row>>, n: nat): map<string, string>
    requires n <= |rows|
  {
    if n <= 1 then map[]
    else
      var m := Loaded(rows, n - 1);
      match rows[n - 1]
      case None => m
      case Some(row) => m[row.course := row.tokens]
  }

  lemma LoadedNext(rows: seq<Option<Row>>, i: nat)
    requires 1 <= i < |rows|
    ensures Loaded(rows, i + 1) == if rows[i].Some? then Loaded(rows, i)[rows[i].value.course := rows[i].value.tokens] else Loaded(rows, i)
  {
  }

  /** A row after the header that loads `course`. */
  predicate LoadsCourse(rows: seq<Option<Row>>, i: nat, course: string)
    requires i < |rows|
  {
    1 <= i && rows[i].Some? && rows[i].value.course == course
  }

  /** A course is loaded exactly when some data row loads it. */
  lemma {:induction false} LoadedIffRow(rows: seq<Option<Row>>, n: nat, course: string)
    requires n <= |rows|
    ensures course in Loaded(rows, n) <==> exists i :: 0 <= i < n && LoadsCourse(rows, i, course)
  {
    if n > 1 {
      LoadedIffRow(rows, n - 1, course);
      if LoadsCourse(rows, n - 1, course) {
        assert course in Loaded(rows, n);
      } else {
        assert course in Loaded(rows, n) <==> course in Loaded(rows, n - 1);
        if i :| 0 <= i < n && LoadsCourse(rows, i, course) {
          assert i < n - 1;
        }
      }
    } else {
      assert forall i :: 0 <= i < n ==> !LoadsCourse(rows, i, course);
    }
  }

  /** A later row for the same course replaces an earlier one: the loaded
      token string is that of the last row loading the course. */
  lemma {:induction false} LoadedLastRow(rows: seq<Option<Row>>, n: nat, course: string)
    requires n <= |rows| && course in Loaded(rows, n)
    ensures exists i :: (0 <= i < n && LoadsCourse(rows, i, course)
      && rows[i].value.tokens == Loaded(rows, n)[course]
      && (forall j :: i < j < n ==> !LoadsCourse(rows, j, course)))
  {
    assert n > 1;
    if LoadsCourse(rows, n - 1, course) {
      assert Loaded(rows, n)[course] == rows[n - 1].value.tokens;
    } else {
      assert Loaded(rows, n)[course] == Loaded(rows, n - 1)[course];
      LoadedLastRow(rows, n - 1, course);
      var i :| 0 <= i < n - 1 && LoadsCourse(rows, i, course)
        && rows[i].value.tokens == Loaded(rows, n - 1)[course]
        && (forall j :: i < j < n - 1 ==> !LoadsCourse(rows, j, course));
      assert forall j :: i < j < n ==> !LoadsCourse(rows, j, course);
    }
  }

  /** Every stored token string is trimmed and not empty. */
  predicate TrimmedStrings(tokenStrings: map<string, string>) {
    forall c :: c in tokenStrings ==> tokenStrings[c] != [] && Trim(tokenStrings[c]) == tokenStrings[c]
  }

  lemma {:induction false} LoadedTrimmed(lines: seq<string>, n: nat)
    requires n <= |lines|
    ensures TrimmedStrings(Loaded(Rows(lines), n))
  {
    if n > 1 {
      LoadedTrimmed(lines, n - 1);
    }
  }

  /** A well-formed data line `code TAB text TAB tokens TAB status` loads
      exactly when its status starts with "OK" and its tokens are not
      blank after trimming. */
  lemma RowOfFields(code: string, text: string, tokens: string, status: string)
    requires TabFree(code) && TabFree(text) && TabFree(tokens) && TabFree(status) && status != ""
    ensures RowOf(Join([code, text, tokens, status])) ==
      if StartsWith(Trim(status), "OK") && Trim(tokens) != [] then Some(Row(Trim(code), Trim(tokens))) else None
  {
    SplitFields([code, text, tokens, status]);
  }

  // ---------------------------------------------------------------------
  // getRequirement and the store object

  /** What `getRequirement` answers: no tree for a course without a token
      string or whose string does not parse; otherwise the parsed tree. */
  function Requirement(tokenStrings: map<string, string>, course: string): Option<Req> {
    if course !in tokenStrings then None
    else
      match ParseTokenString(tokenStrings[course])
      case Success(tree) => tree
      case Failure(_) => None
  }

  /** The store as the plan finders see it. */
  function CatalogOf(tokenStrings: map<string, string>): (cat: Catalog)
    ensures Valid(cat) && cat.hasPrereqs == tokenStrings.Keys
    ensures forall c :: Lookup(cat, c) == Requirement(tokenStrings, c)
  {
    Catalog(tokenStrings.Keys,
            map c | c in tokenStrings && Requirement(tokenStrings, c).Some? :: Requirement(tokenStrings, c).value)
  }

  /** With trimmed non-empty strings, a course that has prerequisites gets
      no tree exactly when its string fails to parse. */
  lemma {:induction false} NoTreeMeansParseFailure(tokenStrings: map<string, string>, course: string)
    requires TrimmedStrings(tokenStrings) && course in tokenStrings
    ensures Requirement(tokenStrings, course).None? <==> ParseTokenString(tokenStrings[course]).Failure?
  {
  }

  class PrereqData {
    var tokenStrings: map<string, string>
    /** The parse cache: only successful parses are stored. */
    var cache: map<string, Option<Req>>
    var coursesWithPrereqs: set<string>

    /** The course set mirrors the map's keys and every cached entry is what
        its stored string parses to. */
    predicate Valid()
      reads this
    {
      && coursesWithPrereqs == tokenStrings.Keys
      && TrimmedStrings(tokenStrings)
      && forall c :: c in cache ==> c in tokenStrings && ParseTokenString(tokenStrings[c]) == Success(cache[c])
    }

    /** Loading from the lines of the file, header first. */
    constructor (lines: seq<string>)
      ensures Valid() && cache == map[]
      ensures tokenStrings == Loaded(Rows(lines), |lines|)
    {
      tokenStrings := map[];
      cache := map[];
      coursesWithPrereqs := {};
      new;
      LoadTsv(lines);
    }

    method LoadTsv(lines: seq<string>)
      requires tokenStrings == map[] && cache == map[] && coursesWithPrereqs == {}
      modifies this
      ensures Valid() && cache == map[]
      ensures tokenStrings == Loaded(Rows(lines), |lines|)
    {
      ghost var rows := Rows(lines);
      var firstLine := true;
      for i := 0 to |lines|
        invariant firstLine <==> i == 0
        invariant tokenStrings == Loaded(rows, i) && coursesWithPrereqs == tokenStrings.Keys
        invariant cache == map[]
      {
        var line := lines[i];
        if firstLine {
          firstLine := false;
          assert Loaded(rows, i + 1) == map[];
          continue;
        }
        LoadedNext(rows, i);
        var row := ReadRow(line);
        if row.Some? {
          tokenStrings := tokenStrings[row.value.course := row.value.tokens];
          coursesWithPrereqs := coursesWithPrereqs + {row.value.course};
        }
      }
      LoadedTrimmed(lines, |lines|);
    }

    /** `getRequirement`: parses on the first request and caches a
        successful parse; a failed parse is answered with no tree and
        retried on the next request. */
    method GetRequirement(courseCode: string) returns (r: Option<Req>)
      requires Valid()
      modifies this
      ensures Valid()
      ensures r == Requirement(tokenStrings, courseCode)
      ensures tokenStrings == old(tokenStrings) && coursesWithPrereqs == old(coursesWithPrereqs)
      ensures cache == if courseCode in tokenStrings && courseCode !in old(cache)
                          && ParseTokenString(tokenStrings[courseCode]).Success?
                       then old(cache)[courseCode := r] else old(cache)
    {
      if courseCode !in tokenStrings {
        return None;
      }
      if courseCode in cache {
        return cache[courseCode];
      }
      var tokens := tokenStrings[courseCode];
      var parsed := TokenStringParser.Parse(tokens);
      match parsed {
        case Success(req) =>
          cache := cache[courseCode := req];
          return req;
        case Failure(_) =>
          return None;
      }
    }

    /** `hasPrereqs`. */
    function HasPrereqs(courseCode: string): (r: bool)
      reads this
      requires Valid()
      ensures r <==> courseCode in coursesWithPrereqs
    {
      courseCode in tokenStrings
    }

    /** `getTokenString`: the stored string, trimmed and not empty, for
        exactly the courses that have prerequisites. */
    function GetTokenString(courseCode: string): (r: Option<string>)
      reads this
      requires Valid()
      ensures r.Some? <==> HasPrereqs(courseCode)
      ensures r.Some? ==> r.value != [] && Trim(r.value) == r.value
    {
      if courseCode in tokenStrings then Some(tokenStrings[courseCode]) else None
    }

    /** `size`: the number of courses that have prerequisites. */
    function Size(): (r: nat)
      reads this
      requires Valid()
      ensures r == |coursesWithPrereqs|
    {
      |tokenStrings|
    }

    /** `getCoursesWithPrereqs`: exactly the loaded course codes. */
    method GetCoursesWithPrereqs() returns (r: set<string>)
      requires Valid()
      ensures r == tokenStrings.Keys
    {
      return coursesWithPrereqs;
    }
  }

  // ---------------------------------------------------------------------
  // extractCourses

  /** The leaf contents of a tree that are real course codes. */
  function CourseLeaves(req: Req): set<string> {
    match req
    case Unit(c, _) => if !StartsWith(c, "SPECIAL") && !StartsWith(c, "PERMISSION") then {c} else {}
    case Expr(_, l, r) => CourseLeaves(l) + CourseLeaves(r)
  }

  /** The collected codes are the leaves that are neither special
      requirements nor permissions. */
  lemma {:induction false} CourseLeavesAreRegularLeaves(req: Req)
    ensures CourseLeaves(req) == set d | d in Leaves(req) && !IsSpecial(d)
  {
    match req
    case Unit(_, _) =>
    case Expr(_, l, r) =>
      CourseLeavesAreRegularLeaves(l);
      CourseLeavesAreRegularLeaves(r);
  }

  /** `extractCoursesHelper`: adds the tree's course codes to the set. */
  method ExtractCoursesHelper(req: Req, courses: set<string>) returns (courses': set<string>)
    ensures courses' == courses + CourseLeaves(req)
    decreases req
  {
    match req {
      case Unit(name, _) =>
        courses' := courses;
        if !StartsWith(name, "SPECIAL") && !StartsWith(name, "PERMISSION") {
          courses' := courses' + {name};
        }
      case Expr(_, left, right) =>
        courses' := ExtractCoursesHelper(left, courses);
        courses' := ExtractCoursesHelper(right, courses');
    }
  }

  /** `extractCourses`. */
  method ExtractCourses(req: Req) returns (courses: set<string>)
    ensures courses == set d | d in Leaves(req) && !IsSpecial(d)
  {
    courses := ExtractCoursesHelper(req, {});
    CourseLeavesAreRegularLeaves(req);
  }
}
