/** The plan enumerator of the runtime solver
    (src/prereqsolver/runtime/PlanFinder.java): the pure enumeration as
    functions over the catalog view, and the `PlanFinder` object, whose
    constructor closes the taken set under prerequisites and whose
    `findPlans` turns the enumeration into sorted, topologically ordered
    plans. `HashSet<Plan>` results are `PlanSet`s in insertion order. */
module RuntimeFinder {
  import opened Wrappers
  import opened Text
  import opened Tokens
  import opened Requirements
  import opened Plans
  import opened Catalogs
  import opened TopoSort

  // ---------------------------------------------------------------------
  // Course numbers: `extractCourseNumber` and `compareByNumber`.

  /** The first index at or after `i` holding an ASCII digit, or `|s|`. */
  function DigitFrom(s: string, i: nat): (r: nat)
    requires i <= |s|
    ensures i <= r <= |s|
    ensures forall k :: i <= k < r ==> !IsDigit(s[k])
    ensures r < |s| ==> IsDigit(s[r])
    decreases |s| - i
  {
    if i == |s| || IsDigit(s[i]) then i else DigitFrom(s, i + 1)
  }

  /** The end of the run of digits starting at `i`. */
  function DigitRunEnd(s: string, i: nat): (r: nat)
    requires i <= |s|
    ensures i <= r <= |s|
    ensures forall k :: i <= k < r ==> IsDigit(s[k])
    ensures r < |s| ==> !IsDigit(s[r])
    decreases |s| - i
  {
    if i == |s| || !IsDigit(s[i]) then i else DigitRunEnd(s, i + 1)
  }

  predicate AllDigits(d: string) {
    forall k :: 0 <= k < |d| ==> IsDigit(d[k])
  }

  /** The decimal value of a digit string (`Integer.parseInt` without the
      32-bit range check). */
  function DigitsValue(d: string): nat
    requires AllDigits(d)
  {
    if d == [] then 0 else 10 * DigitsValue(d[..|d| - 1]) + (d[|d| - 1] as int - '0' as int)
  }

  /** `extractCourseNumber`: the value of the first run of digits, or -1
      when there is no digit at all. */
  function ExtractCourseNumber(course: string): (r: int)
    ensures r == -1 <==> forall k :: 0 <= k < |course| ==> !IsDigit(course[k])
    ensures r >= -1
  {
    var i := DigitFrom(course, 0);
    if i == |course| then -1 else DigitsValue(course[i..DigitRunEnd(course, i)])
  }

  /** The decimal digits of `n`, without leading zeros. */
  function NatToDigits(n: nat): (r: string)
    ensures |r| > 0 && AllDigits(r)
    ensures |r| > 1 ==> r[0] != '0'
  {
    if n < 10 then [('0' as int + n) as char] else NatToDigits(n / 10) + [('0' as int + n % 10) as char]
  }

  lemma {:induction false} DigitsRoundTrip(n: nat)
    ensures DigitsValue(NatToDigits(n)) == n
  {
    if n >= 10 {
      var d := NatToDigits(n);
      assert d[..|d| - 1] == NatToDigits(n / 10);
      DigitsRoundTrip(n / 10);
    }
  }

  /** The number of a course code such as "CS 2110": a digit-free subject,
      the number, then anything not starting with a digit. */
  lemma CourseNumberOfCode(subject: string, n: nat, rest: string)
    requires forall k :: 0 <= k < |subject| ==> !IsDigit(subject[k])
    requires rest == [] || !IsDigit(rest[0])
    ensures ExtractCourseNumber(subject + NatToDigits(n) + rest) == n
  {
    var d := NatToDigits(n);
    var s := subject + d + rest;
    var i := DigitFrom(s, 0);
    assert s[|subject|] == d[0];
    assert i == |subject|;
    var j := DigitRunEnd(s, i);
    assert forall k :: 0 <= k < |d| ==> s[|subject| + k] == d[k];
    if |subject| + |d| < |s| {
      assert s[|subject| + |d|] == rest[0];
    }
    assert j == |subject| + |d|;
    assert s[i..j] == d;
    DigitsRoundTrip(n);
  }

  /** `Integer.compare`. */
  function IntCompare(x: int, y: int): (r: int)
    ensures r == -1 || r == 0 || r == 1
    ensures r < 0 <==> x < y
    ensures r == 0 <==> x == y
  {
    if x < y then -1 else if x == y then 0 else 1
  }

  predicate HasNumber(course: string) {
    ExtractCourseNumber(course) != -1
  }

  /** `compareByNumber`: by course number when both courses have one,
      otherwise by `String.compareTo`. Two different codes with the same
      number compare as equal. */
  function CompareByNumber(a: string, b: string): (r: int)
    ensures HasNumber(a) && HasNumber(b) ==>
      (r < 0 <==> ExtractCourseNumber(a) < ExtractCourseNumber(b)) &&
      (r == 0 <==> ExtractCourseNumber(a) == ExtractCourseNumber(b))
    ensures !(HasNumber(a) && HasNumber(b)) ==> (r == 0 <==> a == b)
  {
    var n1 := ExtractCourseNumber(a);
    var n2 := ExtractCourseNumber(b);
    if n1 != -1 && n2 != -1 then IntCompare(n1, n2) else Text.CompareTo(a, b)
  }

  lemma CompareByNumberAntisymmetric(a: string, b: string)
    ensures CompareByNumber(a, b) == -CompareByNumber(b, a)
  {
    Text.CompareToAntisymmetric(a, b);
  }

  /** The merge step of an AND: an empty side leaves the left-then-right
      order; otherwise the side whose newest course compares greater goes
      second. */
  function MergeOrdered(left: Plan, right: Plan): (r: Plan)
    ensures CourseSet(r) == CourseSet(left) + CourseSet(right)
    ensures Size(r) == Size(left) + Size(right)
  {
    if IsEmpty(left) || IsEmpty(right) then Merge(left, right)
    else if CompareByNumber(HighestCourse(left), HighestCourse(right)) > 0 then Merge(right, left)
    else Merge(left, right)
  }

  /** Of two numbered plans, the one whose newest course has the lower
      number comes first in the merge. */
  lemma MergeOrderedByNumber(left: Plan, right: Plan)
    requires !IsEmpty(left) && !IsEmpty(right)
    requires HasNumber(HighestCourse(left)) && HasNumber(HighestCourse(right))
    ensures var r := MergeOrdered(left, right);
      exists first, second ::
        ((first == left && second == right) || (first == right && second == left)) &&
        r == Merge(first, second) &&
        ExtractCourseNumber(HighestCourse(first)) <= ExtractCourseNumber(HighestCourse(second))
  {
    if CompareByNumber(HighestCourse(left), HighestCourse(right)) > 0 {
      assert MergeOrdered(left, right) == Merge(right, left);
    } else {
      assert MergeOrdered(left, right) == Merge(left, right);
    }
  }

  // ---------------------------------------------------------------------
  // Enumeration: `getPlans`, `getPlansForUnit`, `getPlansForExpression`.

  /** `isAlreadySatisfied`: a leaf holds when its content is planned; an OR
      node needs one side, any other node both. Auto-pass leaves get no
      special treatment here. */
  predicate AlreadySatisfied(req: Req, planned: set<string>) {
    match req
    case Unit(c, _) => c in planned
    case Expr(op, l, r) =>
      if op == OR then AlreadySatisfied(l, planned) || AlreadySatisfied(r, planned)
      else AlreadySatisfied(l, planned) && AlreadySatisfied(r, planned)
  }

  /** `isDirectSpecial`: a leaf naming a special or permission requirement. */
  predicate IsDirectSpecial(req: Req) {
    req.Unit? && IsSpecial(req.content)
  }

  /** Each plan with `course` appended, inserted in iteration order (the
      loop of `getPlansForUnit`). */
  function AppendEach(acc: PlanSet, ps: PlanSet, course: string): (r: PlanSet)
    ensures Distinct(acc) ==> Distinct(r)
    ensures forall q :: q in r ==> q in acc || exists p :: p in ps && q == Append(p, course)
    ensures ps != [] ==> r != []
    decreases |ps|
  {
    if ps == [] then acc
    else AppendEach(Insert(acc, Append(ps[0], course)), ps[1..], course)
  }

  /** The plans for a requirement, given the courses already planned.
      `rank` and `bound` are proof devices only: every course the recursion
      reaches is ranked, and the recursion into its own tree lowers `bound`. */
  function GetPlans(cat: Catalog, req: Req, planned: set<string>, ghost rank: map<string, nat>, ghost bound: nat): (r: PlanSet)
    requires RankedAcyclic(cat, rank) && Below(rank, req, bound)
    ensures Distinct(r) && r != []
    decreases bound, req, 0
  {
    match req
    case Unit(course, _) =>
      if course in planned then [Empty()]
      else if IsSpecial(course) then [Single(course)]
      else if course !in cat.hasPrereqs then [Single(course)]
      else
        var sub := if course in cat.trees then GetPlans(cat, cat.trees[course], planned, rank, RankOf(rank, course)) else [Empty()];
        AppendEach([], sub, course)
    case Expr(op, l, r) =>
      if op == OR then
        if AlreadySatisfied(l, planned) || AlreadySatisfied(r, planned) then [Empty()]
        else if IsDirectSpecial(l) && !IsDirectSpecial(r) then GetPlans(cat, r, planned, rank, bound)
        else if IsDirectSpecial(r) && !IsDirectSpecial(l) then GetPlans(cat, l, planned, rank, bound)
        else InsertAll(InsertAll([], GetPlans(cat, l, planned, rank, bound)), GetPlans(cat, r, planned, rank, bound))
      else if op == AND then
        AndPlans(cat, [], GetPlans(cat, l, planned, rank, bound), r, planned, rank, bound)
      else [Empty()]
  }

  /** The OR cases: a side the planned courses already satisfy leaves
      nothing to plan, and when exactly one side is a direct special only
      the other side is explored. */
  lemma OrCases(cat: Catalog, l: Req, r: Req, planned: set<string>, rank: map<string, nat>, bound: nat)
    requires RankedAcyclic(cat, rank) && Below(rank, Expr(OR, l, r), bound)
    ensures AlreadySatisfied(l, planned) || AlreadySatisfied(r, planned) ==>
      GetPlans(cat, Expr(OR, l, r), planned, rank, bound) == [Empty()]
    ensures !AlreadySatisfied(l, planned) && !AlreadySatisfied(r, planned) && IsDirectSpecial(l) && !IsDirectSpecial(r) ==>
      GetPlans(cat, Expr(OR, l, r), planned, rank, bound) == GetPlans(cat, r, planned, rank, bound)
    ensures !AlreadySatisfied(l, planned) && !AlreadySatisfied(r, planned) && IsDirectSpecial(r) && !IsDirectSpecial(l) ==>
      GetPlans(cat, Expr(OR, l, r), planned, rank, bound) == GetPlans(cat, l, planned, rank, bound)
  {
  }

  /** The AND loop over the left plans: each left plan is merged with every
      plan for the right side, which is enumerated with the left plan's
      courses counted as planned. */
  function AndPlans(cat: Catalog, acc: PlanSet, lefts: PlanSet, right: Req, planned: set<string>,
                    ghost rank: map<string, nat>, ghost bound: nat): (r: PlanSet)
    requires RankedAcyclic(cat, rank) && Below(rank, right, bound)
    ensures Distinct(acc) ==> Distinct(r)
    ensures acc != [] || lefts != [] ==> r != []
    decreases bound, right, |lefts| + 1
  {
    if lefts == [] then acc
    else
      var rights := GetPlans(cat, right, planned + CourseSet(lefts[0]), rank, bound);
      AndPlans(cat, MergeEach(acc, lefts[0], rights), lefts[1..], right, planned, rank, bound)
  }

  /** The inner AND loop: one left plan merged with each right plan. */
  function MergeEach(acc: PlanSet, left: Plan, rights: PlanSet): (r: PlanSet)
    ensures Distinct(acc) ==> Distinct(r)
    ensures forall q :: q in r ==> q in acc || exists p :: p in rights && q == MergeOrdered(left, p)
    ensures rights != [] ==> r != []
    decreases |rights|
  {
    if rights == [] then acc
    else MergeEach(Insert(acc, MergeOrdered(left, rights[0])), left, rights[1..])
  }

  // ---------------------------------------------------------------------
  // What the enumeration guarantees.

  lemma {:induction false} AlreadySatisfiedMonotone(req: Req, planned: set<string>, more: set<string>)
    requires planned <= more && AlreadySatisfied(req, planned)
    ensures AlreadySatisfied(req, more)
  {
    match req
    case Unit(_, _) =>
    case Expr(op, l, r) =>
      if AlreadySatisfied(l, planned) { AlreadySatisfiedMonotone(l, planned, more); }
      if AlreadySatisfied(r, planned) { AlreadySatisfiedMonotone(r, planned, more); }
  }

  /** `isAlreadySatisfied` is the tree's boolean meaning with no auto-pass
      leaf counted as passed; with auto-pass leaves it can only say less. */
  lemma {:induction false} AlreadySatisfiedImpliesHolds(req: Req, planned: set<string>)
    requires AlreadySatisfied(req, planned)
    ensures Holds(req, planned)
  {
    match req
    case Unit(_, _) =>
    case Expr(op, l, r) =>
      if AlreadySatisfied(l, planned) { AlreadySatisfiedImpliesHolds(l, planned); }
      if AlreadySatisfied(r, planned) { AlreadySatisfiedImpliesHolds(r, planned); }
  }

  /** No plan repeats a course that was already planned. */
  ghost predicate AvoidsPlanned(ps: PlanSet, planned: set<string>) {
    forall p :: p in ps ==> CourseSet(p) !! planned
  }

  lemma {:induction false} GetPlansAvoidsPlanned(cat: Catalog, req: Req, planned: set<string>, rank: map<string, nat>, bound: nat)
    requires RankedAcyclic(cat, rank) && Below(rank, req, bound)
    ensures AvoidsPlanned(GetPlans(cat, req, planned, rank, bound), planned)
    decreases bound, req, 0
  {
    match req
    case Unit(course, _) =>
      if course !in planned && !IsSpecial(course) && course in cat.hasPrereqs && course in cat.trees {
        GetPlansAvoidsPlanned(cat, cat.trees[course], planned, rank, RankOf(rank, course));
      }
    case Expr(op, l, r) =>
      if op == OR {
        GetPlansAvoidsPlanned(cat, l, planned, rank, bound);
        GetPlansAvoidsPlanned(cat, r, planned, rank, bound);
      } else if op == AND {
        GetPlansAvoidsPlanned(cat, l, planned, rank, bound);
        AndPlansAvoidsPlanned(cat, [], GetPlans(cat, l, planned, rank, bound), r, planned, rank, bound);
      }
  }

  lemma {:induction false} AndPlansAvoidsPlanned(cat: Catalog, acc: PlanSet, lefts: PlanSet, right: Req, planned: set<string>,
                                                 rank: map<string, nat>, bound: nat)
    requires RankedAcyclic(cat, rank) && Below(rank, right, bound)
    requires AvoidsPlanned(acc, planned) && AvoidsPlanned(lefts, planned)
    ensures AvoidsPlanned(AndPlans(cat, acc, lefts, right, planned, rank, bound), planned)
    decreases bound, right, |lefts| + 1
  {
    if lefts != [] {
      var rights := GetPlans(cat, right, planned + CourseSet(lefts[0]), rank, bound);
      GetPlansAvoidsPlanned(cat, right, planned + CourseSet(lefts[0]), rank, bound);
      assert lefts[0] in lefts;
      AndPlansAvoidsPlanned(cat, MergeEach(acc, lefts[0], rights), lefts[1..], right, planned, rank, bound);
    }
  }

  /** Every plan, added to what was planned, satisfies the requirement. */
  ghost predicate Satisfies(ps: PlanSet, req: Req, planned: set<string>) {
    forall p :: p in ps ==> AlreadySatisfied(req, planned + CourseSet(p))
  }

  /** Operators are AND or OR throughout. */
  predicate OperatorsOnly(req: Req) {
    match req
    case Unit(_, _) => true
    case Expr(op, l, r) => IsOperator(op) && OperatorsOnly(l) && OperatorsOnly(r)
  }

  lemma {:induction false} GetPlansSound(cat: Catalog, req: Req, planned: set<string>, rank: map<string, nat>, bound: nat)
    requires RankedAcyclic(cat, rank) && Below(rank, req, bound) && OperatorsOnly(req)
    ensures Satisfies(GetPlans(cat, req, planned, rank, bound), req, planned)
    decreases bound, req, 0
  {
    match req
    case Unit(course, _) =>
    case Expr(op, l, r) =>
      var ps := GetPlans(cat, req, planned, rank, bound);
      if op == OR {
        if AlreadySatisfied(l, planned) || AlreadySatisfied(r, planned) {
          assert planned + CourseSet(Empty()) == planned;
        } else {
          GetPlansSound(cat, l, planned, rank, bound);
          GetPlansSound(cat, r, planned, rank, bound);
        }
      } else {
        GetPlansSound(cat, l, planned, rank, bound);
        AndPlansSound(cat, [], GetPlans(cat, l, planned, rank, bound), l, r, planned, rank, bound);
      }
  }

  lemma {:induction false} AndPlansSound(cat: Catalog, acc: PlanSet, lefts: PlanSet, left: Req, right: Req,
                                         planned: set<string>, rank: map<string, nat>, bound: nat)
    requires RankedAcyclic(cat, rank) && Below(rank, right, bound) && OperatorsOnly(right)
    requires Satisfies(acc, Expr(AND, left, right), planned) && Satisfies(lefts, left, planned)
    ensures Satisfies(AndPlans(cat, acc, lefts, right, planned, rank, bound), Expr(AND, left, right), planned)
    decreases bound, right, |lefts| + 1
  {
    if lefts != [] {
      var l0 := lefts[0];
      var seen := planned + CourseSet(l0);
      var rights := GetPlans(cat, right, seen, rank, bound);
      GetPlansSound(cat, right, seen, rank, bound);
      assert l0 in lefts;
      var merged := MergeEach(acc, l0, rights);
      MergeEachSound(acc, l0, rights, left, right, planned);
      AndPlansSound(cat, merged, lefts[1..], left, right, planned, rank, bound);
    }
  }

  lemma {:induction false} MergeEachSound(acc: PlanSet, l0: Plan, rights: PlanSet, left: Req, right: Req, planned: set<string>)
    requires Satisfies(acc, Expr(AND, left, right), planned)
    requires AlreadySatisfied(left, planned + CourseSet(l0))
    requires Satisfies(rights, right, planned + CourseSet(l0))
    ensures Satisfies(MergeEach(acc, l0, rights), Expr(AND, left, right), planned)
    decreases |rights|
  {
    if rights != [] {
      var seen := planned + CourseSet(l0);
      var q := MergeOrdered(l0, rights[0]);
      assert rights[0] in rights;
      assert planned + CourseSet(q) == seen + CourseSet(rights[0]);
      AlreadySatisfiedMonotone(left, seen, seen + CourseSet(rights[0]));
      InsertSatisfies(acc, q, Expr(AND, left, right), planned);
      MergeEachSound(Insert(acc, q), l0, rights[1..], left, right, planned);
    }
  }

  lemma InsertSatisfies(acc: PlanSet, q: Plan, req: Req, planned: set<string>)
    requires Satisfies(acc, req, planned) && AlreadySatisfied(req, planned + CourseSet(q))
    ensures Satisfies(Insert(acc, q), req, planned)
  {
  }

  /** A requirement the planned courses already satisfy needs nothing more:
      the only plan is the empty one. */
  lemma {:induction false} SatisfiedNeedsNothing(cat: Catalog, req: Req, planned: set<string>, rank: map<string, nat>, bound: nat)
    requires RankedAcyclic(cat, rank) && Below(rank, req, bound)
    requires AlreadySatisfied(req, planned)
    ensures GetPlans(cat, req, planned, rank, bound) == [Empty()]
    decreases req
  {
    match req
    case Unit(_, _) =>
    case Expr(op, l, r) =>
      if op == AND {
        SatisfiedNeedsNothing(cat, l, planned, rank, bound);
        assert planned + CourseSet(Empty()) == planned;
        SatisfiedNeedsNothing(cat, r, planned, rank, bound);
        assert MergeOrdered(Empty(), Empty()) == Empty();
        assert MergeEach([], Empty(), [Empty()]) == [Empty()];
        assert AndPlans(cat, [], [Empty()], r, planned, rank, bound) == [Empty()];
      }
  }

  /** Every regular course of the plan is ranked, below `bound`. */
  ghost predicate RankedBelow(p: Plan, rank: map<string, nat>, bound: nat) {
    forall c :: c in p.courses && !IsSpecial(c) ==> c in rank && RankOf(rank, c) < bound
  }

  /** No plan lists a course twice, and each stays below `bound`. */
  ghost predicate WellShaped(ps: PlanSet, rank: map<string, nat>, bound: nat) {
    forall p :: p in ps ==> NoDup(p.courses) && RankedBelow(p, rank, bound)
  }

  lemma MergeNoDup(a: Plan, b: Plan)
    requires NoDup(a.courses) && NoDup(b.courses) && CourseSet(a) !! CourseSet(b)
    ensures NoDup(Merge(a, b).courses) && NoDup(Merge(b, a).courses)
  {
    assert multiset(a.courses + b.courses) == multiset(a.courses) + multiset(b.courses);
    assert multiset(b.courses + a.courses) == multiset(b.courses) + multiset(a.courses);
    forall x
      ensures multiset(a.courses)[x] == 0 || multiset(b.courses)[x] == 0
    {
      if x in a.courses {
        assert x in CourseSet(a);
      }
    }
  }

  lemma {:induction false} GetPlansWellShaped(cat: Catalog, req: Req, planned: set<string>, rank: map<string, nat>, bound: nat)
    requires RankedAcyclic(cat, rank) && Below(rank, req, bound)
    ensures WellShaped(GetPlans(cat, req, planned, rank, bound), rank, bound)
    decreases bound, req, 0
  {
    match req
    case Unit(course, _) =>
      if course !in planned && !IsSpecial(course) && course in cat.hasPrereqs {
        var sub := if course in cat.trees then GetPlans(cat, cat.trees[course], planned, rank, RankOf(rank, course)) else [Empty()];
        if course in cat.trees {
          GetPlansWellShaped(cat, cat.trees[course], planned, rank, RankOf(rank, course));
        }
        AppendEachWellShaped([], sub, course, rank, bound);
      }
    case Expr(op, l, r) =>
      if op == OR {
        GetPlansWellShaped(cat, l, planned, rank, bound);
        GetPlansWellShaped(cat, r, planned, rank, bound);
      } else if op == AND {
        GetPlansWellShaped(cat, l, planned, rank, bound);
        GetPlansAvoidsPlanned(cat, l, planned, rank, bound);
        AndPlansWellShaped(cat, [], GetPlans(cat, l, planned, rank, bound), r, planned, rank, bound);
      }
  }

  lemma {:induction false} AndPlansWellShaped(cat: Catalog, acc: PlanSet, lefts: PlanSet, right: Req, planned: set<string>,
                                              rank: map<string, nat>, bound: nat)
    requires RankedAcyclic(cat, rank) && Below(rank, right, bound)
    requires WellShaped(acc, rank, bound) && WellShaped(lefts, rank, bound)
    ensures WellShaped(AndPlans(cat, acc, lefts, right, planned, rank, bound), rank, bound)
    decreases bound, right, |lefts| + 1
  {
    if lefts != [] {
      var l0 := lefts[0];
      var seen := planned + CourseSet(l0);
      var rights := GetPlans(cat, right, seen, rank, bound);
      GetPlansWellShaped(cat, right, seen, rank, bound);
      GetPlansAvoidsPlanned(cat, right, seen, rank, bound);
      assert l0 in lefts;
      MergeEachWellShaped(acc, l0, rights, rank, bound);
      AndPlansWellShaped(cat, MergeEach(acc, l0, rights), lefts[1..], right, planned, rank, bound);
    }
  }

  lemma {:induction false} AppendEachWellShaped(acc: PlanSet, ps: PlanSet, course: string, rank: map<string, nat>, bound: nat)
    requires WellShaped(acc, rank, bound) && WellShaped(ps, rank, RankOf(rank, course))
    requires !IsSpecial(course) && course in rank && RankOf(rank, course) < bound
    ensures WellShaped(AppendEach(acc, ps, course), rank, bound)
    decreases |ps|
  {
    if ps != [] {
      var q := Append(ps[0], course);
      assert ps[0] in ps;
      assert course !in ps[0].courses;
      assert multiset(q.courses) == multiset(ps[0].courses) + multiset{course};
      InsertWellShaped(acc, q, rank, bound);
      AppendEachWellShaped(Insert(acc, q), ps[1..], course, rank, bound);
    }
  }

  lemma InsertWellShaped(acc: PlanSet, q: Plan, rank: map<string, nat>, bound: nat)
    requires WellShaped(acc, rank, bound) && NoDup(q.courses) && RankedBelow(q, rank, bound)
    ensures WellShaped(Insert(acc, q), rank, bound)
  {
  }

  lemma {:induction false} MergeEachWellShaped(acc: PlanSet, l0: Plan, rights: PlanSet, rank: map<string, nat>, bound: nat)
    requires WellShaped(acc, rank, bound) && NoDup(l0.courses) && RankedBelow(l0, rank, bound)
    requires WellShaped(rights, rank, bound) && forall p :: p in rights ==> CourseSet(p) !! CourseSet(l0)
    ensures WellShaped(MergeEach(acc, l0, rights), rank, bound)
    decreases |rights|
  {
    if rights != [] {
      var q := MergeOrdered(l0, rights[0]);
      assert rights[0] in rights;
      MergeNoDup(l0, rights[0]);
      InsertWellShaped(acc, q, rank, bound);
      MergeEachWellShaped(Insert(acc, q), l0, rights[1..], rank, bound);
    }
  }

  /** The course sets an AND node yields: each left plan's courses joined
      with those of each plan for the right side enumerated with the left
      plan's courses counted as planned. */
  ghost function CrossKeys(cat: Catalog, lefts: PlanSet, right: Req, planned: set<string>,
                           rank: map<string, nat>, bound: nat): set<set<string>>
    requires RankedAcyclic(cat, rank) && Below(rank, right, bound)
    decreases |lefts|
  {
    if lefts == [] then {}
    else
      var rights := GetPlans(cat, right, planned + CourseSet(lefts[0]), rank, bound);
      (set q | q in rights :: CourseSet(lefts[0]) + CourseSet(q)) + CrossKeys(cat, lefts[1..], right, planned, rank, bound)
  }

  /** A course set is a cross key exactly when it joins some left plan with
      some plan for the right side enumerated after that left plan. */
  lemma {:induction false} CrossKeysMembers(cat: Catalog, lefts: PlanSet, right: Req, planned: set<string>,
                                            rank: map<string, nat>, bound: nat, k: set<string>)
    requires RankedAcyclic(cat, rank) && Below(rank, right, bound)
    ensures k in CrossKeys(cat, lefts, right, planned, rank, bound) <==>
      exists l, q :: l in lefts && q in GetPlans(cat, right, planned + CourseSet(l), rank, bound) &&
        k == CourseSet(l) + CourseSet(q)
    decreases |lefts|
  {
    if lefts != [] {
      var l0 := lefts[0];
      var tail := lefts[1..];
      CrossKeysMembers(cat, tail, right, planned, rank, bound, k);
      assert forall l :: l in lefts <==> l == l0 || l in tail;
    }
  }

  lemma {:induction false} MergeEachKeys(acc: PlanSet, l0: Plan, rights: PlanSet)
    ensures Keys(MergeEach(acc, l0, rights)) == Keys(acc) + set q | q in rights :: CourseSet(l0) + CourseSet(q)
    decreases |rights|
  {
    if rights != [] {
      MergeEachKeys(Insert(acc, MergeOrdered(l0, rights[0])), l0, rights[1..]);
      assert forall q :: q in rights <==> q == rights[0] || q in rights[1..];
    }
  }

  lemma {:induction false} AndPlansKeys(cat: Catalog, acc: PlanSet, lefts: PlanSet, right: Req, planned: set<string>,
                                        rank: map<string, nat>, bound: nat)
    requires RankedAcyclic(cat, rank) && Below(rank, right, bound)
    ensures Keys(AndPlans(cat, acc, lefts, right, planned, rank, bound)) == Keys(acc) + CrossKeys(cat, lefts, right, planned, rank, bound)
    decreases |lefts|
  {
    if lefts != [] {
      var l0 := lefts[0];
      var rights := GetPlans(cat, right, planned + CourseSet(l0), rank, bound);
      MergeEachKeys(acc, l0, rights);
      AndPlansKeys(cat, MergeEach(acc, l0, rights), lefts[1..], right, planned, rank, bound);
    }
  }

  /** An OR explored on both sides yields, by course set, the plans of
      either side. */
  lemma OrKeys(cat: Catalog, l: Req, r: Req, planned: set<string>, rank: map<string, nat>, bound: nat)
    requires RankedAcyclic(cat, rank) && Below(rank, Expr(OR, l, r), bound)
    requires !AlreadySatisfied(l, planned) && !AlreadySatisfied(r, planned)
    requires IsDirectSpecial(l) == IsDirectSpecial(r)
    ensures Keys(GetPlans(cat, Expr(OR, l, r), planned, rank, bound)) ==
      Keys(GetPlans(cat, l, planned, rank, bound)) + Keys(GetPlans(cat, r, planned, rank, bound))
  {
  }

  /** An AND yields, by course set, every left plan joined with every plan
      for the right side enumerated after it. */
  lemma AndKeys(cat: Catalog, l: Req, r: Req, planned: set<string>, rank: map<string, nat>, bound: nat)
    requires RankedAcyclic(cat, rank) && Below(rank, Expr(AND, l, r), bound)
    ensures Keys(GetPlans(cat, Expr(AND, l, r), planned, rank, bound)) ==
      CrossKeys(cat, GetPlans(cat, l, planned, rank, bound), r, planned, rank, bound)
  {
    AndPlansKeys(cat, [], GetPlans(cat, l, planned, rank, bound), r, planned, rank, bound);
  }

  /** Every plan enumerated for a regular target avoids the taken courses,
      repeats no course once the target is appended (no prerequisite the
      enumeration reaches leads back to the target), and together with the
      taken courses satisfies the target's requirement. */
  lemma TargetPlansSound(cat: Catalog, target: string, taken: set<string>, rank: map<string, nat>)
    requires AcyclicFrom(cat, rank, target) && !IsSpecial(target)
    requires target in cat.trees ==> OperatorsOnly(cat.trees[target])
    ensures forall p :: p in TargetPlans(cat, target, taken, rank) ==>
      && CourseSet(p) !! taken
      && NoDup(Append(p, target).courses)
      && (target in cat.trees ==> AlreadySatisfied(cat.trees[target], taken + CourseSet(p)))
  {
    var ps := TargetPlans(cat, target, taken, rank);
    var bound := RankOf(rank, target);
    if target in cat.trees {
      var tree := cat.trees[target];
      GetPlansAvoidsPlanned(cat, tree, taken, rank, bound);
      GetPlansWellShaped(cat, tree, taken, rank, bound);
      GetPlansSound(cat, tree, taken, rank, bound);
    }
    forall p | p in ps
      ensures NoDup(Append(p, target).courses)
    {
      if target in cat.trees {
        assert RankedBelow(p, rank, bound);
        assert target !in p.courses;
      }
      AppendNoDup(p, target);
    }
  }

  /** A regular target ranks above every regular course of each of its
      plans, so it is the top-ranked course once appended. */
  lemma TargetPlansTopRanked(cat: Catalog, target: string, taken: set<string>, rank: map<string, nat>)
    requires AcyclicFrom(cat, rank, target) && !IsSpecial(target)
    ensures forall p :: p in TargetPlans(cat, target, taken, rank) ==> TopRanked(rank, Append(p, target).courses)
  {
    var bound := RankOf(rank, target);
    if target in cat.trees {
      GetPlansWellShaped(cat, cat.trees[target], taken, rank, bound);
    }
    forall p | p in TargetPlans(cat, target, taken, rank)
      ensures TopRanked(rank, Append(p, target).courses)
    {
      var s := Append(p, target).courses;
      assert s[|s| - 1] == target;
      if target in cat.trees {
        forall k | 0 <= k < |s| - 1 && !IsSpecial(s[k])
          ensures RankOf(rank, s[k]) < bound
        {
          assert s[k] == p.courses[k];
          assert RankedBelow(p, rank, bound);
        }
      }
    }
  }

  /** Each plan enumerated for a target, with the target appended, lies in
      an acyclic part of the store: the enumeration reaches ranked courses
      only, each below the course whose tree led to it. */
  lemma TargetPlansPlanAcyclic(cat: Catalog, target: string, taken: set<string>, rank: map<string, nat>)
    requires AcyclicFrom(cat, rank, target)
    ensures forall p :: p in TargetPlans(cat, target, taken, rank) ==> PlanAcyclic(cat, rank, CourseSet(Append(p, target)))
  {
    var bound := RankOf(rank, target);
    if target in cat.trees {
      GetPlansWellShaped(cat, cat.trees[target], taken, rank, bound);
    }
    forall p | p in TargetPlans(cat, target, taken, rank)
      ensures PlanAcyclic(cat, rank, CourseSet(Append(p, target)))
    {
      var planSet := CourseSet(Append(p, target));
      forall c, d | c in planSet && !IsSpecial(c) && d in PrereqsInPlan(cat, planSet, c) && !IsSpecial(d)
        ensures RankOf(rank, d) < RankOf(rank, c)
      {
        if c != target {
          assert c in p.courses;
          assert RankedBelow(p, rank, bound);
        }
      }
    }
  }

  /** `o` is a topological order of `p` with `target` appended, ending
      with the target when the target ranks above the rest. */
  ghost predicate OrderedWith(cat: Catalog, rank: map<string, nat>, p: Plan, target: string, o: Plan) {
    var withTarget := Append(p, target);
    && IsTopoOrder(cat, withTarget, o.courses)
    && (PlanAcyclic(cat, rank, CourseSet(withTarget)) && TopRanked(rank, withTarget.courses) ==>
          o.courses != [] && o.courses[|o.courses| - 1] == target)
  }

  lemma AppendNoDup(p: Plan, course: string)
    requires NoDup(p.courses) && course !in p.courses
    ensures NoDup(Append(p, course).courses)
  {
    assert multiset(p.courses + [course]) == multiset(p.courses) + multiset{course};
  }

  // ---------------------------------------------------------------------
  // Expansion of the taken set.

  /** A course whose tree's non-PERMISSION leaves all lie in `s`. */
  ghost predicate Done(cat: Catalog, course: string, s: set<string>) {
    course in cat.trees ==>
      forall d {:trigger d in Leaves(cat.trees[course])} ::
        d in Leaves(cat.trees[course]) && !IsPermission(d) ==> d in s
  }

  /** A set closed under prerequisites: every course in it is done. */
  ghost predicate Closed(cat: Catalog, s: set<string>) {
    forall c :: c in s ==> Done(cat, c, s)
  }

  /** `x` lies in every closed superset of `s`. */
  ghost predicate Implied(cat: Catalog, s: set<string>, x: string) {
    forall t {:trigger Closed(cat, t)} :: s <= t && Closed(cat, t) ==> x in t
  }

  /** The least closed superset of `s`: what the constructor makes of the
      taken courses. */
  ghost function Expansion(cat: Catalog, s: set<string>): set<string> {
    set x | x in s + Universe(cat) && Implied(cat, s, x)
  }

  lemma DoneMonotone(cat: Catalog, course: string, s: set<string>, t: set<string>)
    requires Done(cat, course, s) && s <= t
    ensures Done(cat, course, t)
  {
  }

  /** A leaf of a stored tree belongs to the universe. */
  lemma LeafInUniverse(cat: Catalog, c: string, d: string)
    requires c in cat.trees && d in Leaves(cat.trees[c])
    ensures d in Universe(cat)
  {
  }

  /** A non-PERMISSION leaf of an implied course's tree is implied. */
  lemma ImpliedStep(cat: Catalog, s: set<string>, c: string, d: string)
    requires Implied(cat, s, c) && c in cat.trees
    requires d in Leaves(cat.trees[c]) && !IsPermission(d)
    ensures Implied(cat, s, d)
  {
    forall t | s <= t && Closed(cat, t)
      ensures d in t
    {
      assert c in t && Done(cat, c, t);
    }
  }

  /** The expansion contains its input, is closed, and lies inside every
      closed superset of the input. */
  lemma ExpansionIsLeastClosed(cat: Catalog, s: set<string>)
    ensures s <= Expansion(cat, s)
    ensures Closed(cat, Expansion(cat, s))
    ensures forall t :: s <= t && Closed(cat, t) ==> Expansion(cat, s) <= t
  {
    var e := Expansion(cat, s);
    forall c | c in e
      ensures Done(cat, c, e)
    {
      if c in cat.trees {
        forall d | d in Leaves(cat.trees[c]) && !IsPermission(d)
          ensures d in e
        {
          ImpliedStep(cat, s, c, d);
          LeafInUniverse(cat, c, d);
        }
      }
    }
  }

  /** A set that contains `s`, is closed, and holds only implied courses
      is the expansion of `s`. */
  lemma ExpansionUnique(cat: Catalog, s: set<string>, t: set<string>)
    requires s <= t && Closed(cat, t)
    requires forall x :: x in t ==> Implied(cat, s, x)
    requires t <= s + Universe(cat)
    ensures t == Expansion(cat, s)
  {
  }

  /** Expanding a closed set changes nothing; in particular expansion is
      idempotent. */
  lemma {:induction false} ExpansionOfClosed(cat: Catalog, s: set<string>)
    requires Closed(cat, s)
    ensures Expansion(cat, s) == s
  {
    ExpansionIsLeastClosed(cat, s);
  }

  /** More taken courses expand to more. */
  lemma {:induction false} ExpansionMonotone(cat: Catalog, s: set<string>, t: set<string>)
    requires s <= t
    ensures Expansion(cat, s) <= Expansion(cat, t)
  {
    ExpansionIsLeastClosed(cat, s);
    ExpansionIsLeastClosed(cat, t);
  }

  /** Expansion adds no PERMISSION leaf: no course needs one, so the
      expansion without it is still closed. */
  lemma ExpansionAddsNoPermission(cat: Catalog, s: set<string>, x: string)
    requires IsPermission(x) && x !in s
    ensures x !in Expansion(cat, s)
  {
    ExpansionIsLeastClosed(cat, s);
    var e := Expansion(cat, s);
    var t := e - {x};
    forall c | c in t
      ensures Done(cat, c, t)
    {
      assert Done(cat, c, e);
    }
    assert Closed(cat, t);
  }

  /** A taken course's whole prerequisite tree (PERMISSION leaves aside)
      counts as taken after expansion. */
  lemma {:induction false} ExpansionTakesPrereqs(cat: Catalog, s: set<string>, c: string, d: string)
    requires c in s && c in cat.trees && d in Leaves(cat.trees[c]) && !IsPermission(d)
    ensures d in Expansion(cat, s)
  {
    ExpansionIsLeastClosed(cat, s);
    assert Done(cat, c, Expansion(cat, s));
  }

  // ---------------------------------------------------------------------
  // The finder object.

  class PlanFinder {
    const data: Catalog
    var takenCourses: set<string>
    /** Every leaf of every stored tree. */
    ghost const universe: set<string>

    /** Copies the taken set and closes it under prerequisites. */
    constructor (data: Catalog, takenCourses: set<string>)
      ensures this.data == data && universe == Universe(data)
      ensures this.takenCourses == Expansion(data, takenCourses)
    {
      this.data := data;
      this.universe := Universe(data);
      this.takenCourses := takenCourses;
      new;
      ExpandTakenCourses();
    }

    /** `expandTakenCourses`: every course of the original set has its
        prerequisites added. */
    method ExpandTakenCourses()
      requires universe == Universe(data)
      modifies this
      ensures takenCourses == Expansion(data, old(takenCourses))
    {
      ghost var orig := takenCourses;
      var todo := takenCourses;
      while todo != {}
        invariant Sound(data, universe, orig, takenCourses)
        invariant todo <= orig
        invariant forall x :: x in takenCourses && x !in todo ==> Done(data, x, takenCourses)
        decreases todo
      {
        var course :| course in todo;
        todo := todo - {course};
        AddAllPrereqs(course, orig);
      }
      ExpansionUnique(data, orig, takenCourses);
    }

    /** `addAllPrereqs`: a course without a stored tree adds nothing. */
    method AddAllPrereqs(course: string, ghost orig: set<string>)
      requires Implied(data, orig, course)
      requires universe == Universe(data)
      requires Sound(data, universe, orig, takenCourses)
      modifies this
      ensures old(takenCourses) <= takenCourses
      ensures Sound(data, universe, orig, takenCourses)
      ensures Done(data, course, takenCourses)
      ensures NewDone(data, old(takenCourses), takenCourses)
      decreases |universe - takenCourses|, 1, 0
    {
      var tree := Lookup(data, course);
      if tree.None? {
        return;
      }
      forall d | d in Leaves(tree.value) && !IsPermission(d)
        ensures Implied(data, orig, d)
      {
        ImpliedStep(data, orig, course, d);
      }
      forall d | d in Leaves(tree.value)
        ensures d in universe
      {
        LeafInUniverse(data, course, d);
      }
      AddAllFromTree(tree.value, orig);
    }

    /** `addAllFromTree`: every non-PERMISSION leaf is added, and each leaf
        added for the first time has its own prerequisites added. */
    method AddAllFromTree(req: Req, ghost orig: set<string>)
      requires Leaves(req) <= universe
      requires forall d :: d in Leaves(req) && !IsPermission(d) ==> Implied(data, orig, d)
      requires universe == Universe(data)
      requires Sound(data, universe, orig, takenCourses)
      modifies this
      ensures old(takenCourses) <= takenCourses
      ensures Sound(data, universe, orig, takenCourses)
      ensures forall d :: d in Leaves(req) && !IsPermission(d) ==> d in takenCourses
      ensures NewDone(data, old(takenCourses), takenCourses)
      decreases |universe - takenCourses|, 0, NodeCount(req)
    {
      match req
      case Unit(content, _) =>
        AddLeaf(content, orig);
      case Expr(_, l, r) =>
        ghost var before := takenCourses;
        AddAllFromTree(l, orig);
        ghost var mid := takenCourses;
        SubsetCard(universe - mid, universe - before);
        AddAllFromTree(r, orig);
        NewDoneTrans(data, before, mid, takenCourses);
    }

    /** The leaf case of `addAllFromTree`. */
    method AddLeaf(content: string, ghost orig: set<string>)
      requires content in universe
      requires !IsPermission(content) ==> Implied(data, orig, content)
      requires universe == Universe(data)
      requires Sound(data, universe, orig, takenCourses)
      modifies this
      ensures old(takenCourses) <= takenCourses
      ensures Sound(data, universe, orig, takenCourses)
      ensures !IsPermission(content) ==> content in takenCourses
      ensures NewDone(data, old(takenCourses), takenCourses)
      decreases |universe - takenCourses|, 0, 0
    {
      if IsPermission(content) {
        return;
      }
      if content !in takenCourses {
        ghost var before := takenCourses;
        takenCourses := takenCourses + {content};
        assert universe - before == (universe - takenCourses) + {content};
        AddAllPrereqs(content, orig);
      }
    }

    /** `findPlans`: a taken target needs nothing, a target without
        prerequisites is its own plan, and otherwise every plan for the
        target's requirement, with the target appended, is put in
        prerequisite order; the list is sorted by size, plans of one size
        keeping their enumeration order. `perPlan` holds the
        ordered plans before sorting, one for each enumerated plan. */
    method FindPlans(targetCourse: string, ghost rank: map<string, nat>)
      returns (result: seq<Plan>, ghost perPlan: seq<Plan>)
      requires targetCourse !in takenCourses && targetCourse in data.hasPrereqs ==> AcyclicFrom(data, rank, targetCourse)
      ensures targetCourse in takenCourses ==> result == [Empty()]
      ensures targetCourse !in takenCourses && targetCourse !in data.hasPrereqs ==>
        result == [Single(targetCourse)]
      ensures targetCourse !in takenCourses && targetCourse in data.hasPrereqs ==>
        var prereqPlans := TargetPlans(data, targetCourse, takenCourses, rank);
        && SortedBySize(result)
        && multiset(result) == multiset(perPlan)
        && (forall n: nat :: OfSize(result, n) == OfSize(perPlan, n))
        && |perPlan| == |prereqPlans|
        && (forall i :: 0 <= i < |perPlan| ==>
             IsTopoOrder(data, Append(prereqPlans[i], targetCourse), perPlan[i].courses))
        && (!IsSpecial(targetCourse) ==> forall i :: 0 <= i < |perPlan| ==>
             perPlan[i].courses != [] && perPlan[i].courses[|perPlan[i].courses| - 1] == targetCourse)
    {
      perPlan := [];
      if targetCourse in takenCourses {
        return [Empty()], perPlan;
      }
      if targetCourse !in data.hasPrereqs {
        return [Single(targetCourse)], perPlan;
      }
      var prereqs := Lookup(data, targetCourse);
      var prereqPlans := GetPlansFor(prereqs, takenCourses, rank, RankOf(rank, targetCourse));
      assert prereqPlans == TargetPlans(data, targetCourse, takenCourses, rank);
      var unsorted := OrderEach(prereqPlans, targetCourse, rank);
      if !IsSpecial(targetCourse) {
        TargetPlansTopRanked(data, targetCourse, takenCourses, rank);
        TargetPlansPlanAcyclic(data, targetCourse, takenCourses, rank);
        forall i | 0 <= i < |unsorted|
          ensures unsorted[i].courses != [] && unsorted[i].courses[|unsorted[i].courses| - 1] == targetCourse
        {
          assert prereqPlans[i] in prereqPlans;
        }
      }
      perPlan := unsorted;
      result := SortBySize(unsorted);
    }

    /** The loop of `findPlans` that appends the target to each plan and
        sorts it topologically. A plan in which the target ranks above the
        rest comes out with the target last. */
    method OrderEach(prereqPlans: PlanSet, targetCourse: string, ghost rank: map<string, nat>)
      returns (ordered: seq<Plan>)
      ensures |ordered| == |prereqPlans|
      ensures forall i :: 0 <= i < |ordered| ==>
        IsTopoOrder(data, Append(prereqPlans[i], targetCourse), ordered[i].courses)
      ensures forall i :: 0 <= i < |ordered| && PlanAcyclic(data, rank, CourseSet(Append(prereqPlans[i], targetCourse)))
                           && TopRanked(rank, Append(prereqPlans[i], targetCourse).courses) ==>
        ordered[i].courses != [] && ordered[i].courses[|ordered[i].courses| - 1] == targetCourse
    {
      ordered := [];
      for i := 0 to |prereqPlans|
        invariant |ordered| == i
        invariant forall k :: 0 <= k < i ==> OrderedWith(data, rank, prereqPlans[k], targetCourse, ordered[k])
      {
        var withTarget := Append(prereqPlans[i], targetCourse);
        var sorted := SortTopologically(data, withTarget, rank);
        assert OrderedWith(data, rank, prereqPlans[i], targetCourse, sorted);
        ordered := ordered + [sorted];
      }
    }

    /** `getPlans`; `None` stands for a course whose requirement is
        missing or does not parse. */
    method GetPlansFor(requirement: Option<Req>, alreadyPlanned: set<string>,
                       ghost rank: map<string, nat>, ghost bound: nat) returns (result: PlanSet)
      requires RankedAcyclic(data, rank)
      requires requirement.Some? ==> Below(rank, requirement.value, bound)
      ensures requirement.None? ==> result == [Empty()]
      ensures requirement.Some? ==> result == GetPlans(data, requirement.value, alreadyPlanned, rank, bound)
      decreases bound, if requirement.Some? then NodeCount(requirement.value) else 0, 2
    {
      match requirement
      case None =>
        result := [Empty()];
      case Some(req) =>
        if req.Unit? {
          result := GetPlansForUnit(req, alreadyPlanned, rank, bound);
        } else {
          result := GetPlansForExpression(req, alreadyPlanned, rank, bound);
        }
    }

    /** `getPlansForUnit`. */
    method GetPlansForUnit(unit: Req, alreadyPlanned: set<string>,
                           ghost rank: map<string, nat>, ghost bound: nat) returns (result: PlanSet)
      requires unit.Unit?
      requires RankedAcyclic(data, rank) && Below(rank, unit, bound)
      ensures result == GetPlans(data, unit, alreadyPlanned, rank, bound)
      decreases bound, NodeCount(unit), 1
    {
      var course := unit.content;
      if course in alreadyPlanned {
        return [Empty()];
      }
      if IsSpecial(course) {
        return [Single(course)];
      }
      if course !in data.hasPrereqs {
        return [Single(course)];
      }
      var prereqs := Lookup(data, course);
      var prereqPlans := GetPlansFor(prereqs, alreadyPlanned, rank, RankOf(rank, course));
      result := [];
      for i := 0 to |prereqPlans|
        invariant AppendEach(result, prereqPlans[i..], course) == AppendEach([], prereqPlans, course)
      {
        assert prereqPlans[i..][1..] == prereqPlans[i + 1..];
        result := Insert(result, Append(prereqPlans[i], course));
      }
    }

    /** `getPlansForExpression`. */
    method GetPlansForExpression(expr: Req, alreadyPlanned: set<string>,
                                 ghost rank: map<string, nat>, ghost bound: nat) returns (result: PlanSet)
      requires expr.Expr?
      requires RankedAcyclic(data, rank) && Below(rank, expr, bound)
      ensures result == GetPlans(data, expr, alreadyPlanned, rank, bound)
      decreases bound, NodeCount(expr), 1
    {
      if expr.op == OR {
        var leftSatisfied := AlreadySatisfied(expr.left, alreadyPlanned);
        var rightSatisfied := AlreadySatisfied(expr.right, alreadyPlanned);
        if leftSatisfied || rightSatisfied {
          return [Empty()];
        }
        var leftIsSpecial := IsDirectSpecial(expr.left);
        var rightIsSpecial := IsDirectSpecial(expr.right);
        if leftIsSpecial && !rightIsSpecial {
          result := GetPlansFor(Some(expr.right), alreadyPlanned, rank, bound);
          return;
        }
        if rightIsSpecial && !leftIsSpecial {
          result := GetPlansFor(Some(expr.left), alreadyPlanned, rank, bound);
          return;
        }
        var leftPlans := GetPlansFor(Some(expr.left), alreadyPlanned, rank, bound);
        var rightPlans := GetPlansFor(Some(expr.right), alreadyPlanned, rank, bound);
        result := InsertAll(InsertAll([], leftPlans), rightPlans);
        return;
      }
      if expr.op == AND {
        var leftPlans := GetPlansFor(Some(expr.left), alreadyPlanned, rank, bound);
        result := AndLoop(expr.right, leftPlans, alreadyPlanned, rank, bound);
        return;
      }
      result := [Empty()];
    }

    /** The AND loop of `getPlansForExpression`: for each left plan, the
        right side is enumerated with the left plan's courses counted as
        planned, and each right plan is merged with the left plan. */
    method AndLoop(right: Req, leftPlans: PlanSet, alreadyPlanned: set<string>,
                   ghost rank: map<string, nat>, ghost bound: nat) returns (result: PlanSet)
      requires RankedAcyclic(data, rank) && Below(rank, right, bound)
      ensures result == AndPlans(data, [], leftPlans, right, alreadyPlanned, rank, bound)
      decreases bound, NodeCount(right) + 1, 0
    {
      result := [];
      for i := 0 to |leftPlans|
        invariant AndPlans(data, result, leftPlans[i..], right, alreadyPlanned, rank, bound)
               == AndPlans(data, [], leftPlans, right, alreadyPlanned, rank, bound)
      {
        var leftPlan := leftPlans[i];
        var newAlreadyPlanned := alreadyPlanned + CourseSet(leftPlan);
        var rightPlans := GetPlansFor(Some(right), newAlreadyPlanned, rank, bound);
        ghost var acc := result;
        for j := 0 to |rightPlans|
          invariant MergeEach(result, leftPlan, rightPlans[j..]) == MergeEach(acc, leftPlan, rightPlans)
        {
          assert rightPlans[j..][1..] == rightPlans[j + 1..];
          result := Insert(result, MergeOrdered(leftPlan, rightPlans[j]));
        }
        assert leftPlans[i..][1..] == leftPlans[i + 1..];
      }
    }
  }

  /** The plans `findPlans` enumerates for a target with prerequisites: those
      of its requirement, or the single empty plan when it has none that
      parses. */
  function TargetPlans(cat: Catalog, target: string, taken: set<string>, ghost rank: map<string, nat>): (r: PlanSet)
    requires AcyclicFrom(cat, rank, target)
    ensures Distinct(r) && r != []
  {
    match Lookup(cat, target)
    case None => [Empty()]
    case Some(tree) => GetPlans(cat, tree, taken, rank, RankOf(rank, target))
  }

  /** The finder's taken set holds the original courses and implied
      courses of the universe only. */
  ghost predicate Sound(cat: Catalog, universe: set<string>, orig: set<string>, t: set<string>) {
    && orig <= t <= orig + universe
    && forall x :: x in t ==> Implied(cat, orig, x)
  }

  /** Every course added since `before` is done in `t`. */
  ghost predicate NewDone(cat: Catalog, before: set<string>, t: set<string>) {
    forall x :: x in t - before ==> Done(cat, x, t)
  }

  lemma NewDoneTrans(cat: Catalog, a: set<string>, b: set<string>, c: set<string>)
    requires a <= b <= c
    requires NewDone(cat, a, b) && NewDone(cat, b, c)
    requires forall x :: x in b - a ==> x in c
    ensures NewDone(cat, a, c)
  {
    forall x | x in c - a
      ensures Done(cat, x, c)
    {
      if x in b {
        DoneMonotone(cat, x, b, c);
      }
    }
  }
}
