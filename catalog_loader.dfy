/** The catalog loader (src/prereqsolver/CatalogLoader.java): a scanner over
    the catalog's JSON text that finds each balanced object, reads three
    quoted fields out of it and builds the map from course code to
    prerequisite text. The file's contents are given as a string. */
module CatalogLoading {
  import opened Wrappers
  import opened Text

  // ---------------------------------------------------------------------
  // findMatchingBrace

  /** The scanner's flags: brace depth, inside a string literal, and a
      pending backslash escape. */
  datatype ScanState = ScanState(depth: int, inString: bool, escape: bool)

  const Start := ScanState(0, false, false)

  /** One character of the scan. An escaped character is skipped; a
      backslash starts an escape only inside a string; a quote toggles the
      string flag; braces count only outside strings. */
  function ScanChar(st: ScanState, c: char): ScanState {
    if st.escape then st.(escape := false)
    else if c == '\\' && st.inString then st.(escape := true)
    else if c == '"' then st.(inString := !st.inString)
    else if !st.inString && c == '{' then st.(depth := st.depth + 1)
    else if !st.inString && c == '}' then st.(depth := st.depth - 1)
    else st
  }

  /** The state after scanning `s` from `st`. */
  function Run(st: ScanState, s: string): ScanState
    decreases |s|
  {
    if s == [] then st else ScanChar(Run(st, s[..|s| - 1]), s[|s| - 1])
  }

  /** The state after scanning `json[openPos..i]` from the start state. */
  function ScanTo(json: string, openPos: nat, i: nat): ScanState
    requires i <= |json|
    decreases i
  {
    if i <= openPos then Start else ScanChar(ScanTo(json, openPos, i - 1), json[i - 1])
  }

  /** The character at `i` closes the object opened at `openPos`: a `}`
      outside any string that brings the depth back to zero. */
  predicate ClosesAt(json: string, openPos: nat, i: nat)
    requires openPos <= i < |json|
  {
    var st := ScanTo(json, openPos, i);
    json[i] == '}' && !st.escape && !st.inString && st.depth == 1
  }

  /** The first closing position at or after `i`, or -1. */
  function MatchFrom(json: string, openPos: nat, i: nat): (r: int)
    requires openPos <= i
    ensures r == -1 || i <= r < |json|
    decreases |json| - i
  {
    if i >= |json| then -1
    else if ClosesAt(json, openPos, i) then i
    else MatchFrom(json, openPos, i + 1)
  }

  lemma {:induction false} MatchFromFirst(json: string, openPos: nat, i: nat)
    requires openPos <= i
    ensures var r := MatchFrom(json, openPos, i);
      && (r == -1 || ClosesAt(json, openPos, r))
      && (r == -1 ==> forall k :: i <= k < |json| ==> !ClosesAt(json, openPos, k))
      && (r != -1 ==> forall k :: i <= k < r ==> !ClosesAt(json, openPos, k))
    decreases |json| - i
  {
    if i < |json| && !ClosesAt(json, openPos, i) {
      MatchFromFirst(json, openPos, i + 1);
    }
  }

  /** Where the object opened at `openPos` ends, or -1 when it never does. */
  function MatchingBrace(json: string, openPos: nat): (r: int)
    ensures r == -1 || openPos <= r < |json|
  {
    MatchFrom(json, openPos, openPos)
  }

  /** `findMatchingBrace` answers the first position at or after the
      opening one where a `}` outside any string brings the depth back to
      zero, and -1 exactly when there is none. */
  lemma MatchingBraceFirst(json: string, openPos: nat)
    ensures var r := MatchingBrace(json, openPos);
      && (r == -1 || ClosesAt(json, openPos, r))
      && (r == -1 <==> forall k :: openPos <= k < |json| ==> !ClosesAt(json, openPos, k))
      && (r != -1 ==> forall k :: openPos <= k < r ==> !ClosesAt(json, openPos, k))
  {
    MatchFromFirst(json, openPos, openPos);
  }

  /** `findMatchingBrace`. */
  method FindMatchingBrace(json: string, openPos: nat) returns (r: int)
    ensures r == MatchingBrace(json, openPos)
  {
    var depth := 0;
    var inString := false;
    var escape := false;
    var i := openPos;
    while i < |json|
      invariant openPos <= i && (i <= |json| || i == openPos)
      invariant i <= |json| ==> ScanState(depth, inString, escape) == ScanTo(json, openPos, i)
      invariant i <= |json| ==> MatchFrom(json, openPos, i) == MatchingBrace(json, openPos)
      decreases |json| - i
    {
      var c := json[i];
      if escape {
        escape := false;
        i := i + 1;
        continue;
      }
      if c == '\\' && inString {
        escape := true;
        i := i + 1;
        continue;
      }
      if c == '"' {
        inString := !inString;
        i := i + 1;
        continue;
      }
      if !inString {
        if c == '{' {
          depth := depth + 1;
        } else if c == '}' {
          depth := depth - 1;
          if depth == 0 {
            return i;
          }
        }
      }
      i := i + 1;
    }
    return -1;
  }

  /** Scanning a concatenation is scanning its parts one after the other. */
  lemma {:induction false} RunAppend(st: ScanState, a: string, b: string)
    ensures Run(st, a + b) == Run(Run(st, a), b)
    decreases |b|
  {
    if b == [] {
      assert a + b == a;
    } else {
      assert (a + b)[..|a + b| - 1] == a + b[..|b| - 1];
      RunAppend(st, a, b[..|b| - 1]);
    }
  }

  /** The index-based scan agrees with the scan of the slice. */
  lemma {:induction false} ScanToRun(json: string, openPos: nat, i: nat)
    requires openPos <= i <= |json|
    ensures ScanTo(json, openPos, i) == Run(Start, json[openPos..i])
    decreases i
  {
    if i > openPos {
      ScanToRun(json, openPos, i - 1);
      assert json[openPos..i][..i - 1 - openPos] == json[openPos..i - 1];
    }
  }

  /** Inside a string, a backslash makes the next character inert: an
      escaped quote does not end the string and an escaped brace does not
      count. */
  lemma EscapedCharInert(st: ScanState, c: char)
    requires st.inString && !st.escape
    ensures Run(st, ['\\', c]) == st
  {
    assert ['\\', c][..1] == ['\\'];
    assert ['\\'][..0] == [];
  }

  /** A string value written as JSON writes it: a backslash before each
      quote and backslash. */
  function Escape(s: string): (r: string)
    ensures |r| >= |s|
  {
    if s == [] then []
    else (if s[0] == '"' || s[0] == '\\' then ['\\', s[0]] else [s[0]]) + Escape(s[1..])
  }

  /** A value between quotes. */
  function Quoted(s: string): string {
    ['"'] + Escape(s) + ['"']
  }

  /** No character of `s` is a `}` seen outside a string. */
  predicate NoCloseIn(st: ScanState, s: string) {
    forall j :: 0 <= j < |s| && s[j] == '}' ==> Run(st, s[..j]).inString || Run(st, s[..j]).escape
  }

  lemma {:induction false} NoCloseAppend(st: ScanState, a: string, b: string)
    requires NoCloseIn(st, a) && NoCloseIn(Run(st, a), b)
    ensures NoCloseIn(st, a + b)
  {
    forall j | 0 <= j < |a + b| && (a + b)[j] == '}'
      ensures Run(st, (a + b)[..j]).inString || Run(st, (a + b)[..j]).escape
    {
      if j < |a| {
        assert (a + b)[..j] == a[..j];
      } else {
        assert (a + b)[..j] == a + b[..j - |a|];
        RunAppend(st, a, b[..j - |a|]);
        assert b[j - |a|] == '}';
      }
    }
  }

  /** A string without braces or quotes, scanned from any state with no
      pending escape and outside a string, changes nothing that matters
      here. */
  predicate Inert(s: string) {
    forall j :: 0 <= j < |s| ==> s[j] != '{' && s[j] != '}' && s[j] != '"' && s[j] != '\\'
  }

  lemma {:induction false} InertRun(st: ScanState, s: string)
    requires !st.escape && Inert(s)
    ensures Run(st, s) == st && NoCloseIn(st, s)
    decreases |s|
  {
    if s != [] {
      InertRun(st, s[..|s| - 1]);
    }
  }

  /** An escaped value, scanned inside a string, leaves the state as it was
      and shows no closing brace. */
  lemma {:induction false} EscapedRun(st: ScanState, s: string)
    requires st.inString && !st.escape
    ensures Run(st, Escape(s)) == st && NoCloseIn(st, Escape(s))
    decreases |s|
  {
    if s != [] {
      var piece := if s[0] == '"' || s[0] == '\\' then ['\\', s[0]] else [s[0]];
      assert Escape(s) == piece + Escape(s[1..]);
      if |piece| == 2 {
        EscapedCharInert(st, s[0]);
        assert piece[..1] == ['\\'];
        assert piece[..1][..0] == [];
        assert NoCloseIn(st, piece);
      } else {
        assert piece[..0] == [];
        assert Run(st, piece) == st;
        assert NoCloseIn(st, piece);
      }
      RunAppend(st, piece, Escape(s[1..]));
      EscapedRun(st, s[1..]);
      NoCloseAppend(st, piece, Escape(s[1..]));
    }
  }

  lemma QuoteRun(st: ScanState)
    requires !st.escape
    ensures Run(st, ['"']) == st.(inString := !st.inString) && NoCloseIn(st, ['"'])
  {
    assert ['"'][..0] == [];
  }

  /** A quoted value, scanned outside a string, leaves the state as it was
      and shows no closing brace. */
  lemma QuotedRun(st: ScanState, s: string)
    requires !st.inString && !st.escape
    ensures Run(st, Quoted(s)) == st && NoCloseIn(st, Quoted(s))
  {
    var open := st.(inString := true);
    QuoteRun(st);
    EscapedRun(open, s);
    RunAppend(st, ['"'], Escape(s));
    NoCloseAppend(st, ['"'], Escape(s));
    QuoteRun(open);
    RunAppend(st, ['"'] + Escape(s), ['"']);
    NoCloseAppend(st, ['"'] + Escape(s), ['"']);
  }

  /** A key and its string value. */
  datatype Field = Field(key: string, value: string)

  function FieldText(f: Field): string {
    Quoted(f.key) + ": " + Quoted(f.value)
  }

  /** Fields written one after the other, separated by ", ". */
  function FieldsText(fs: seq<Field>): string
    decreases |fs|
  {
    if fs == [] then []
    else if |fs| == 1 then FieldText(fs[0])
    else FieldText(fs[0]) + ", " + FieldsText(fs[1..])
  }

  /** An object whose members are all string fields. */
  function ObjectText(fs: seq<Field>): string {
    "{" + FieldsText(fs) + "}"
  }

  lemma FieldRun(st: ScanState, f: Field)
    requires !st.inString && !st.escape
    ensures Run(st, FieldText(f)) == st && NoCloseIn(st, FieldText(f))
  {
    QuotedRun(st, f.key);
    InertRun(st, ": ");
    QuotedRun(st, f.value);
    RunAppend(st, Quoted(f.key), ": ");
    NoCloseAppend(st, Quoted(f.key), ": ");
    RunAppend(st, Quoted(f.key) + ": ", Quoted(f.value));
    NoCloseAppend(st, Quoted(f.key) + ": ", Quoted(f.value));
  }

  lemma {:induction false} FieldsRun(st: ScanState, fs: seq<Field>)
    requires !st.inString && !st.escape
    ensures Run(st, FieldsText(fs)) == st && NoCloseIn(st, FieldsText(fs))
    decreases |fs|
  {
    if |fs| == 1 {
      FieldRun(st, fs[0]);
    } else if |fs| > 1 {
      FieldRun(st, fs[0]);
      InertRun(st, ", ");
      RunAppend(st, FieldText(fs[0]), ", ");
      NoCloseAppend(st, FieldText(fs[0]), ", ");
      FieldsRun(st, fs[1..]);
      RunAppend(st, FieldText(fs[0]) + ", ", FieldsText(fs[1..]));
      NoCloseAppend(st, FieldText(fs[0]) + ", ", FieldsText(fs[1..]));
    }
  }

  /** The brace that closes a written object is its last character,
      whatever follows it. */
  lemma ObjectBraceMatches(fs: seq<Field>, rest: string)
    ensures MatchingBrace(ObjectText(fs) + rest, 0) == |ObjectText(fs)| - 1
  {
    var body := FieldsText(fs);
    var json := ObjectText(fs) + rest;
    var end := |body| + 1;
    var inside := ScanState(1, false, false);
    assert Run(Start, "{") == inside by {
      assert "{"[..0] == [];
    }
    FieldsRun(inside, fs);
    forall k | 0 <= k < end
      ensures !ClosesAt(json, 0, k)
    {
      if k > 0 && json[k] == '}' {
        assert json[0..k] == "{" + body[..k - 1];
        ScanToRun(json, 0, k);
        RunAppend(Start, "{", body[..k - 1]);
        assert body[k - 1] == '}';
      }
    }
    assert json[0..end] == "{" + body;
    ScanToRun(json, 0, end);
    RunAppend(Start, "{", body);
    assert ClosesAt(json, 0, end);
    MatchingBraceFirst(json, 0);
  }

  // ---------------------------------------------------------------------
  // extractStringField

  /** Prefixing a possibly missing string. */
  function Prepend(p: string, o: Option<string>): Option<string> {
    match o
    case None => None
    case Some(s) => Some(p + s)
  }

  /** The characters from `i` up to the first unescaped quote, each
      escaping backslash removed; none when no such quote follows. */
  function Unescape(json: string, i: nat, escape: bool): Option<string>
    decreases |json| - i
  {
    if i >= |json| then None
    else if escape then Prepend([json[i]], Unescape(json, i + 1, false))
    else if json[i] == '\\' then Unescape(json, i + 1, true)
    else if json[i] == '"' then Some([])
    else Prepend([json[i]], Unescape(json, i + 1, false))
  }

  /** Reading back an escaped value gives the value, whatever follows the
      closing quote. */
  lemma {:induction false} UnescapeEscape(v: string, json: string, i: nat)
    requires OccursAt(json, Escape(v) + ['"'], i)
    ensures Unescape(json, i, false) == Some(v)
    decreases |v|
  {
    var t := Escape(v) + ['"'];
    assert json[i] == t[0];
    if v != [] {
      var piece := if v[0] == '"' || v[0] == '\\' then ['\\', v[0]] else [v[0]];
      var next := i + |piece|;
      assert t == piece + (Escape(v[1..]) + ['"']);
      assert OccursAt(json, Escape(v[1..]) + ['"'], next) by {
        assert json[next..next + |Escape(v[1..]) + ['"']|] == json[i..i + |t|][|piece|..];
      }
      UnescapeEscape(v[1..], json, next);
      if |piece| == 2 {
        assert json[i + 1] == t[1] == v[0];
      }
      assert [v[0]] + v[1..] == v;
    }
  }

  /** The first index at or after `i` that is not Java whitespace. */
  function SkipWhitespace(json: string, i: nat): (r: nat)
    ensures i <= r && (r < |json| ==> !IsJavaWhitespace(json[r]))
    decreases |json| - i
  {
    if i < |json| && IsJavaWhitespace(json[i]) then SkipWhitespace(json, i + 1) else i
  }

  /** The key as it appears in the text, between quotes. */
  function KeyPattern(fieldName: string): string {
    ['"'] + fieldName + ['"']
  }

  /** `json.substring(i).startsWith("null")`. */
  predicate NullAt(json: string, i: nat) {
    i + 4 <= |json| && json[i] == 'n' && json[i + 1] == 'u' && json[i + 2] == 'l' && json[i + 3] == 'l'
  }

  /** What `extractStringField` answers. No value when the quoted key does
      not occur, when no colon follows it, when the value is `null` or is
      not a string, or when the string is not terminated; otherwise the
      unescaped string after the first occurrence of the key. */
  function ExtractField(json: string, fieldName: string): (r: Option<string>)
    ensures r.Some? ==> exists k :: OccursAt(json, KeyPattern(fieldName), k)
  {
    var pattern := KeyPattern(fieldName);
    var keyPos := IndexOf(json, pattern, 0);
    if keyPos == -1 then None
    else
      var colonPos := IndexOfChar(json, ':', keyPos + |pattern|);
      if colonPos == -1 then None
      else
        var valueStart := SkipWhitespace(json, colonPos + 1);
        if valueStart >= |json| then None
        else if NullAt(json, valueStart) then None
        else if json[valueStart] != '"' then None
        else Unescape(json, valueStart + 1, false)
  }

  lemma PrependPrepend(a: string, b: string, o: Option<string>)
    ensures Prepend(a, Prepend(b, o)) == Prepend(a + b, o)
  {
    if o.Some? {
      assert a + (b + o.value) == (a + b) + o.value;
    }
  }

  /** The string loop of `extractStringField`, from just after the opening
      quote. */
  method ReadStringValue(json: string, start: nat) returns (r: Option<string>)
    requires start <= |json|
    ensures r == Unescape(json, start, false)
  {
    var sb := "";
    var escape := false;
    assert Prepend(sb, Unescape(json, start, escape)) == Unescape(json, start, false) by {
      var o := Unescape(json, start, false);
      if o.Some? {
        assert sb + o.value == o.value;
      }
    }
    for i := start to |json|
      invariant Unescape(json, start, false) == Prepend(sb, Unescape(json, i, escape))
    {
      var c := json[i];
      if escape {
        PrependPrepend(sb, [c], Unescape(json, i + 1, false));
        sb := sb + [c];
        escape := false;
        continue;
      }
      if c == '\\' {
        escape := true;
        continue;
      }
      if c == '"' {
        assert sb + [] == sb;
        return Some(sb);
      }
      PrependPrepend(sb, [c], Unescape(json, i + 1, false));
      sb := sb + [c];
    }
    return None;
  }

  /** `extractStringField`. */
  method ExtractStringField(json: string, fieldName: string) returns (r: Option<string>)
    ensures r == ExtractField(json, fieldName)
  {
    var pattern := ['"'] + fieldName + ['"'];
    var keyPos := IndexOf(json, pattern, 0);
    if keyPos == -1 {
      return None;
    }
    var colonPos := IndexOfChar(json, ':', keyPos + |pattern|);
    if colonPos == -1 {
      return None;
    }
    var valueStart := colonPos + 1;
    while valueStart < |json| && IsJavaWhitespace(json[valueStart])
      invariant colonPos + 1 <= valueStart
      invariant SkipWhitespace(json, valueStart) == SkipWhitespace(json, colonPos + 1)
      decreases |json| - valueStart
    {
      valueStart := valueStart + 1;
    }
    if valueStart >= |json| {
      return None;
    }
    if NullAt(json, valueStart) {
      return None;
    }
    if json[valueStart] != '"' {
      return None;
    }
    r := ReadStringValue(json, valueStart + 1);
  }

  /** A key with no quote and no backslash is written as it is. */
  predicate PlainKey(k: string) {
    forall j :: 0 <= j < |k| ==> k[j] != '"' && k[j] != '\\'
  }

  lemma {:induction false} PlainEscape(k: string)
    requires PlainKey(k)
    ensures Escape(k) == k
    decreases |k|
  {
    if k != [] {
      PlainEscape(k[1..]);
      assert [k[0]] + k[1..] == k;
    }
  }

  /** A string value written right after the key is read back, whatever
      follows it. */
  lemma LeadingValueRead(key: string, value: string, tail: string)
    ensures ExtractField("{" + KeyPattern(key) + ": " + Quoted(value) + tail, key) == Some(value)
  {
    var pattern := KeyPattern(key);
    var v := Escape(value) + ['"'];
    var json := "{" + pattern + ": " + Quoted(value) + tail;
    var colon := 1 + |pattern|;
    assert json[0] == '{' && json[1..colon] == pattern && json[colon] == ':' && json[colon + 1] == ' '
      && json[colon + 2] == '"' && json[colon + 3..colon + 3 + |v|] == v
    by {
      assert json == "{" + pattern + ": \"" + v + tail;
    }
    assert IndexOf(json, pattern, 0) == 1 by {
      assert pattern[0] == '"';
    }
    assert IndexOfChar(json, ':', colon) == colon;
    assert SkipWhitespace(json, colon + 1) == colon + 2;
    UnescapeEscape(value, json, colon + 3);
  }

  lemma Regroup<T>(a: seq<T>, b: seq<T>, c: seq<T>, d: seq<T>, m: seq<T>, e: seq<T>, r: seq<T>)
    ensures a + (b + c + d + m) + e + r == a + b + c + d + (m + e + r)
  {
  }

  /** The value of an object's first field is read back as written. */
  lemma FirstFieldRead(key: string, value: string, others: seq<Field>, rest: string)
    requires PlainKey(key)
    ensures ExtractField(ObjectText([Field(key, value)] + others) + rest, key) == Some(value)
  {
    var fs := [Field(key, value)] + others;
    PlainEscape(key);
    var more := if |fs| == 1 then [] else ", " + FieldsText(fs[1..]);
    assert FieldsText(fs) == KeyPattern(key) + ": " + Quoted(value) + more;
    Regroup("{", KeyPattern(key), ": ", Quoted(value), more, "}", rest);
    LeadingValueRead(key, value, more + "}" + rest);
  }

  /** A `null` value reads as no value. */
  lemma NullFieldAbsent(key: string, rest: string)
    ensures ExtractField("{" + KeyPattern(key) + ": null" + rest, key) == None
  {
    var json := "{" + KeyPattern(key) + ": null" + rest;
    var pattern := KeyPattern(key);
    var colon := 1 + |pattern|;
    assert IndexOf(json, pattern, 0) == 1 by {
      assert json[0] == '{' && pattern[0] == '"';
      assert json[1..colon] == pattern;
    }
    assert IndexOfChar(json, ':', colon) == colon;
    assert SkipWhitespace(json, colon + 1) == colon + 2;
    assert NullAt(json, colon + 2);
  }

  // ---------------------------------------------------------------------
  // parseCoursesFromJson

  datatype CourseData = CourseData(subject: string, catalogNbr: string, prereq: Option<string>)

  /** The course read from one object: none when it lacks a subject or a
      catalog number. */
  function CourseOf(obj: string): (r: Option<CourseData>)
    ensures r.Some? <==> ExtractField(obj, "subject").Some? && ExtractField(obj, "catalogNbr").Some?
  {
    var subject := ExtractField(obj, "subject");
    var catalogNbr := ExtractField(obj, "catalogNbr");
    if subject.Some? && catalogNbr.Some? then
      Some(CourseData(subject.value, catalogNbr.value, ExtractField(obj, "catalogPrereq")))
    else None
  }

  /** An object beginning at `a` and closing at `b`. */
  predicate ObjectAt(json: string, a: nat, b: nat) {
    a <= b < |json| && MatchingBrace(json, a) == b
  }

  /** The objects found from `pos` on, in order: each `{` opens one that
      runs to its matching brace, and the search stops when no `{` is left
      or an object never closes. */
  function ObjectsFrom(json: string, pos: nat): seq<string>
    decreases |json| - pos
  {
    if pos >= |json| then []
    else
      var objStart := IndexOfChar(json, '{', pos);
      if objStart == -1 then []
      else
        var objEnd := MatchingBrace(json, objStart);
        if objEnd == -1 then [] else [json[objStart..objEnd + 1]] + ObjectsFrom(json, objEnd + 1)
  }

  /** What `read` makes of the objects found from `pos` on, in order,
      skipping the objects it gives nothing for. */
  function ReadObjects<T>(json: string, pos: nat, read: string -> Option<T>): seq<T>
    decreases |json| - pos
  {
    if pos >= |json| then []
    else
      var objStart := IndexOfChar(json, '{', pos);
      if objStart == -1 then []
      else
        var objEnd := MatchingBrace(json, objStart);
        if objEnd == -1 then []
        else
          var item := read(json[objStart..objEnd + 1]);
          (if item.Some? then [item.value] else []) + ReadObjects(json, objEnd + 1, read)
  }

  /** What `parseCoursesFromJson` returns: the course of every object, the
      objects without a subject or a catalog number skipped. */
  function CoursesFrom(json: string): seq<CourseData> {
    ReadObjects(json, 0, CourseOf)
  }

  /** Every object found is balanced: it starts with a `{` after `pos` and
      ends at that brace's match. */
  lemma {:induction false} ObjectsBalanced(json: string, pos: nat, k: nat)
    requires k < |ObjectsFrom(json, pos)|
    ensures exists a: nat, b: nat :: (pos <= a && ObjectAt(json, a, b) && json[a] == '{'
      && ObjectsFrom(json, pos)[k] == json[a..b + 1])
    decreases |json| - pos
  {
    var objStart := IndexOfChar(json, '{', pos);
    var objEnd := MatchingBrace(json, objStart);
    var objs := ObjectsFrom(json, pos);
    assert objs == [json[objStart..objEnd + 1]] + ObjectsFrom(json, objEnd + 1);
    if k == 0 {
      var a: nat, b: nat := objStart, objEnd;
      assert pos <= a && ObjectAt(json, a, b) && json[a] == '{' && objs[k] == json[a..b + 1];
    } else {
      ObjectsBalanced(json, objEnd + 1, k - 1);
      var a: nat, b: nat :| objEnd + 1 <= a && ObjectAt(json, a, b) && json[a] == '{'
        && ObjectsFrom(json, objEnd + 1)[k - 1] == json[a..b + 1];
      assert pos <= a && objs[k] == json[a..b + 1];
    }
  }

  lemma ReadObjectsStep<T>(json: string, pos: nat, read: string -> Option<T>, objStart: nat, objEnd: nat)
    requires pos < |json| && objStart == IndexOfChar(json, '{', pos) && objEnd == MatchingBrace(json, objStart)
    ensures var item := read(json[objStart..objEnd + 1]);
      ReadObjects(json, pos, read) == (if item.Some? then [item.value] else []) + ReadObjects(json, objEnd + 1, read)
  {
  }

  lemma ObjectsFromStep(json: string, pos: nat, objStart: nat, objEnd: nat)
    requires pos < |json| && objStart == IndexOfChar(json, '{', pos) && objEnd == MatchingBrace(json, objStart)
    ensures ObjectsFrom(json, pos) == [json[objStart..objEnd + 1]] + ObjectsFrom(json, objEnd + 1)
  {
  }

  /** A course is read from `pos` on exactly when one of the objects found
      from `pos` on reads as it. */
  lemma {:induction false} ReadObjectsFound<T>(json: string, pos: nat, read: string -> Option<T>, c: T)
    ensures c in ReadObjects(json, pos, read) <==>
      exists k :: 0 <= k < |ObjectsFrom(json, pos)| && read(ObjectsFrom(json, pos)[k]) == Some(c)
    decreases |json| - pos
  {
    var objStart := IndexOfChar(json, '{', pos);
    var objEnd := if objStart == -1 then -1 else MatchingBrace(json, objStart);
    if pos >= |json| || objEnd == -1 {
      assert ReadObjects(json, pos, read) == [] && ObjectsFrom(json, pos) == [];
    } else {
      ReadObjectsStep(json, pos, read, objStart, objEnd);
      ObjectsFromStep(json, pos, objStart, objEnd);
      ReadObjectsFound(json, objEnd + 1, read, c);
      var objs := ObjectsFrom(json, pos);
      var rest := ObjectsFrom(json, objEnd + 1);
      var item := read(objs[0]);
      var found := if item.Some? then [item.value] else [];
      assert ReadObjects(json, pos, read) == found + ReadObjects(json, objEnd + 1, read);
      if c in ReadObjects(json, pos, read) && item != Some(c) {
        var k :| 0 <= k < |rest| && read(rest[k]) == Some(c);
        assert objs[k + 1] == rest[k];
      }
      if exists k :: 0 <= k < |objs| && read(objs[k]) == Some(c) {
        var k :| 0 <= k < |objs| && read(objs[k]) == Some(c);
        if k > 0 {
          assert rest[k - 1] == objs[k];
          assert c in ReadObjects(json, objEnd + 1, read);
        } else {
          assert c in found;
        }
      }
    }
  }

  /** Every course `parseCoursesFromJson` returns is what some balanced
      object of the text reads as. */
  lemma CourseFromBalancedObject(json: string, c: CourseData)
    requires c in CoursesFrom(json)
    ensures exists a: nat, b: nat :: ObjectAt(json, a, b) && CourseOf(json[a..b + 1]) == Some(c)
  {
    ReadObjectsFound(json, 0, CourseOf, c);
    var objs := ObjectsFrom(json, 0);
    var k :| 0 <= k < |objs| && CourseOf(objs[k]) == Some(c);
    ObjectsBalanced(json, 0, k);
    var a: nat, b: nat :| 0 <= a && ObjectAt(json, a, b) && json[a] == '{' && objs[k] == json[a..b + 1];
    assert ObjectAt(json, a, b) && CourseOf(json[a..b + 1]) == Some(c);
  }

  /** Without a further `{`, or without its matching `}`, the scan ends. */
  lemma NoMoreObjects<T>(json: string, pos: nat, read: string -> Option<T>)
    requires pos < |json|
    requires IndexOfChar(json, '{', pos) == -1 || MatchingBrace(json, IndexOfChar(json, '{', pos)) == -1
    ensures ReadObjects(json, pos, read) == []
  {
  }

  /** The field reads of one object in `parseCoursesFromJson`. */
  method ReadCourse(courseJson: string) returns (course: Option<CourseData>)
    ensures course == CourseOf(courseJson)
  {
    var subject := ExtractStringField(courseJson, "subject");
    var catalogNbr := ExtractStringField(courseJson, "catalogNbr");
    var prereq := ExtractStringField(courseJson, "catalogPrereq");
    if subject.Some? && catalogNbr.Some? {
      return Some(CourseData(subject.value, catalogNbr.value, prereq));
    }
    return None;
  }

  /** One round of the loop of `parseCoursesFromJson`: the next object at
      or after `pos` and what it reads as, or `found` false when the scan
      stops there. */
  method ScanObject(json: string, pos: nat) returns (found: bool, reading: Option<CourseData>, next: nat)
    requires pos < |json|
    ensures !found ==> ReadObjects(json, pos, CourseOf) == []
    ensures found ==> pos < next
    ensures found ==>
      ReadObjects(json, pos, CourseOf) == (if reading.Some? then [reading.value] else []) + ReadObjects(json, next, CourseOf)
  {
    var objStart := IndexOfChar(json, '{', pos);
    if objStart == -1 {
      NoMoreObjects(json, pos, CourseOf);
      return false, None, pos;
    }
    var objEnd := FindMatchingBrace(json, objStart);
    if objEnd == -1 {
      NoMoreObjects(json, pos, CourseOf);
      return false, None, pos;
    }
    ReadObjectsStep(json, pos, CourseOf, objStart, objEnd);
    var courseJson := json[objStart..objEnd + 1];
    reading := ReadCourse(courseJson);
    found, next := true, objEnd + 1;
  }

  /** `parseCoursesFromJson`. */
  method ParseCoursesFromJson(json: string) returns (courses: seq<CourseData>)
    ensures courses == CoursesFrom(json)
  {
    courses := [];
    var pos := 0;
    while pos < |json|
      invariant courses + ReadObjects(json, pos, CourseOf) == CoursesFrom(json)
      decreases |json| - pos
    {
      var found, reading, next := ScanObject(json, pos);
      if !found {
        break;
      }
      ghost var rest := ReadObjects(json, next, CourseOf);
      if reading.Some? {
        assert courses + ([reading.value] + rest) == (courses + [reading.value]) + rest;
        courses := courses + [reading.value];
      } else {
        assert [] + rest == rest;
      }
      pos := next;
    }
    assert courses + [] == courses;
  }

  /** A written object at the front is found whole, and the search goes
      on right after it. */
  lemma ObjectThenRest(fs: seq<Field>, rest: string)
    ensures var obj := ObjectText(fs);
      ObjectsFrom(obj + rest, 0) == [obj] + ObjectsFrom(obj + rest, |obj|)
  {
    var obj := ObjectText(fs);
    var json := obj + rest;
    assert IndexOfChar(json, '{', 0) == 0;
    ObjectBraceMatches(fs, rest);
    assert json[0..|obj|] == obj;
    ObjectsFromStep(json, 0, 0, |obj| - 1);
  }

  // ---------------------------------------------------------------------
  // load

  /** The key a course is filed under. */
  function CourseCode(c: CourseData): string {
    c.subject + " " + c.catalogNbr
  }

  /** A course files its prerequisite only when there is one and it is not
      blank. */
  predicate Files(c: CourseData) {
    c.prereq.Some? && !IsBlank(c.prereq.value)
  }

  /** The map built from the first `n` courses; a later course with the
      same code replaces an earlier one. */
  function PrereqMap(courses: seq<CourseData>, n: nat): map<string, string>
    requires n <= |courses|
  {
    if n == 0 then map[]
    else
      var m := PrereqMap(courses, n - 1);
      var c := courses[n - 1];
      if Files(c) then m[CourseCode(c) := c.prereq.value] else m
  }

  /** `load`, after reading the file. */
  method Load(json: string) returns (prereqMap: map<string, string>)
    ensures var courses := CoursesFrom(json); prereqMap == PrereqMap(courses, |courses|)
  {
    prereqMap := map[];
    var courses := ParseCoursesFromJson(json);
    for i := 0 to |courses|
      invariant prereqMap == PrereqMap(courses, i)
    {
      var course := courses[i];
      if course.prereq.Some? && !IsBlank(course.prereq.value) {
        var courseCode := course.subject + " " + course.catalogNbr;
        prereqMap := prereqMap[courseCode := course.prereq.value];
      }
    }
  }

  /** A code is in the map exactly when some course with that code has a
      non-blank prerequisite. */
  lemma {:induction false} PrereqMapKeys(courses: seq<CourseData>, n: nat, code: string)
    requires n <= |courses|
    ensures code in PrereqMap(courses, n) <==>
      exists i :: 0 <= i < n && Files(courses[i]) && CourseCode(courses[i]) == code
  {
    if n > 0 {
      PrereqMapKeys(courses, n - 1, code);
      var c := courses[n - 1];
      if !(Files(c) && CourseCode(c) == code) {
        assert code in PrereqMap(courses, n) <==> code in PrereqMap(courses, n - 1);
        if i :| 0 <= i < n && Files(courses[i]) && CourseCode(courses[i]) == code {
          assert i < n - 1;
        }
      }
    }
  }

  /** Every mapped prerequisite is the non-blank text of the last course
      filed under that code. */
  lemma {:induction false} PrereqMapLast(courses: seq<CourseData>, n: nat, code: string)
    requires n <= |courses| && code in PrereqMap(courses, n)
    ensures !IsBlank(PrereqMap(courses, n)[code])
    ensures exists i :: (0 <= i < n && Files(courses[i]) && CourseCode(courses[i]) == code
      && courses[i].prereq.value == PrereqMap(courses, n)[code]
      && (forall j :: i < j < n ==> !(Files(courses[j]) && CourseCode(courses[j]) == code)))
  {
    var c := courses[n - 1];
    if Files(c) && CourseCode(c) == code {
      assert PrereqMap(courses, n)[code] == c.prereq.value;
    } else {
      assert PrereqMap(courses, n)[code] == PrereqMap(courses, n - 1)[code];
      PrereqMapLast(courses, n - 1, code);
      var i :| 0 <= i < n - 1 && Files(courses[i]) && CourseCode(courses[i]) == code
        && courses[i].prereq.value == PrereqMap(courses, n - 1)[code]
        && (forall j :: i < j < n - 1 ==> !(Files(courses[j]) && CourseCode(courses[j]) == code));
      assert forall j :: i < j < n ==> !(Files(courses[j]) && CourseCode(courses[j]) == code);
    }
  }
}
