/** The older plan enumerator (src/main/java/PlanFinder.java): no expansion
    of the taken set, an OR keeps only the plans free of SPECIAL/PERMISSION
    courses whenever there are any, an AND orders merged plans by the
    lexicographic order of their last courses, and the plans found are not
    put in prerequisite order. */
module LegacyFinder {
  import opened Wrappers
  import opened Text
  import opened Tokens
  import opened Requirements
  import opened Plans
  import opened Catalogs
  import RuntimeFinder

  /** Some course of the plan is a SPECIAL or PERMISSION leaf. */
  predicate HasSpecial(p: Plan) {
    exists i :: 0 <= i < |p.courses| && IsSpecial(p.courses[i])
  }

  /** The partition loop after an OR: the plans of `ps` whose `HasSpecial`
      is `special`, added in order to `acc`. */
  function SelectBy(acc: PlanSet, ps: PlanSet, special: bool): (r: PlanSet)
    ensures Distinct(acc) ==> Distinct(r)
    ensures forall p :: p in r ==> p in acc || (p in ps && HasSpecial(p) == special)
    ensures r == [] ==> acc == [] && forall p :: p in ps ==> HasSpecial(p) != special
    decreases |ps|
  {
    if ps == [] then acc
    else SelectBy(if HasSpecial(ps[0]) == special then Insert(acc, ps[0]) else acc, ps[1..], special)
  }

  /** The real-course plans if there are any, otherwise the special ones. */
  function PreferReal(ps: PlanSet): (r: PlanSet)
    ensures Distinct(r)
    ensures forall p :: p in r ==> p in ps
    ensures ps != [] ==> r != []
  {
    var plain := SelectBy([], ps, false);
    if plain != [] then plain else SelectBy([], ps, true)
  }

  /** The merge of an AND: the plan whose last course is lexicographically
      greater goes second. */
  function MergeLex(left: Plan, right: Plan): (r: Plan)
    ensures CourseSet(r) == CourseSet(left) + CourseSet(right)
    ensures Size(r) == Size(left) + Size(right)
  {
    if IsEmpty(left) || IsEmpty(right) then Merge(left, right)
    else if Text.CompareTo(HighestCourse(left), HighestCourse(right)) > 0 then Merge(right, left)
    else Merge(left, right)
  }

  /** `getPlans`, `getPlansForUnit` and `getPlansForExpression`. */
  function GetPlans(cat: Catalog, req: Req, planned: set<string>, ghost rank: map<string, nat>, ghost bound: nat): (r: PlanSet)
    requires RankedAcyclic(cat, rank) && Below(rank, req, bound)
    ensures Distinct(r) && r != []
    decreases bound, req, 0
  {
    match req
    case Unit(course, _) =>
      if course in planned then [Empty()]
      else if IsSpecial(course) then [Single(course)]
      else if course !in cat.hasPrereqs then [Single(course)]
      else
        var sub := if course in cat.trees then GetPlans(cat, cat.trees[course], planned, rank, RankOf(rank, course)) else [Empty()];
        RuntimeFinder.AppendEach([], sub, course)
    case Expr(op, l, r) =>
      if op == OR then
        if RuntimeFinder.AlreadySatisfied(l, planned) || RuntimeFinder.AlreadySatisfied(r, planned) then [Empty()]
        else PreferReal(InsertAll(InsertAll([], GetPlans(cat, l, planned, rank, bound)), GetPlans(cat, r, planned, rank, bound)))
      else if op == AND then
        AndPlans(cat, [], GetPlans(cat, l, planned, rank, bound), r, planned, rank, bound)
      else [Empty()]
  }

  /** A unit already planned, and an OR with a side already satisfied,
      leave nothing to plan. */
  lemma PlannedNeedsNothing(cat: Catalog, req: Req, planned: set<string>, rank: map<string, nat>, bound: nat)
    requires RankedAcyclic(cat, rank) && Below(rank, req, bound)
    ensures req.Unit? && req.content in planned ==> GetPlans(cat, req, planned, rank, bound) == [Empty()]
    ensures req.Expr? && req.op == OR ==>
      (RuntimeFinder.AlreadySatisfied(req.left, planned) || RuntimeFinder.AlreadySatisfied(req.right, planned) ==>
         GetPlans(cat, req, planned, rank, bound) == [Empty()])
  {
  }

  /** The AND loop over the left plans. */
  function AndPlans(cat: Catalog, acc: PlanSet, lefts: PlanSet, right: Req, planned: set<string>,
                    ghost rank: map<string, nat>, ghost bound: nat): (r: PlanSet)
    requires RankedAcyclic(cat, rank) && Below(rank, right, bound)
    ensures Distinct(acc) ==> Distinct(r)
    ensures acc != [] || lefts != [] ==> r != []
    decreases bound, right, |lefts| + 1
  {
    if lefts == [] then acc
    else
      var rights := GetPlans(cat, right, planned + CourseSet(lefts[0]), rank, bound);
      AndPlans(cat, MergeEach(acc, lefts[0], rights), lefts[1..], right, planned, rank, bound)
  }

  /** The inner AND loop: one left plan merged with each right plan. */
  function MergeEach(acc: PlanSet, left: Plan, rights: PlanSet): (r: PlanSet)
    ensures Distinct(acc) ==> Distinct(r)
    ensures forall q :: q in r ==> q in acc || exists p :: p in rights && q == MergeLex(left, p)
    ensures acc != [] || rights != [] ==> r != []
    decreases |rights|
  {
    if rights == [] then acc
    else MergeEach(Insert(acc, MergeLex(left, rights[0])), left, rights[1..])
  }

  // ---------------------------------------------------------------------
  // Properties.

  /** Selecting from plans none of which equals a plan already selected
      keeps exactly the plans of the requested kind. */
  lemma {:induction false} SelectByMembers(acc: PlanSet, ps: PlanSet, special: bool)
    requires Distinct(ps)
    requires forall i, j :: 0 <= i < |acc| && 0 <= j < |ps| ==> !Equals(acc[i], ps[j])
    ensures forall p :: p in SelectBy(acc, ps, special) <==> p in acc || (p in ps && HasSpecial(p) == special)
    decreases |ps|
  {
    if ps != [] {
      var p0 := ps[0];
      var acc' := if HasSpecial(p0) == special then Insert(acc, p0) else acc;
      if HasSpecial(p0) == special {
        assert !HasEqual(acc, p0) by {
          forall i | 0 <= i < |acc|
            ensures !Equals(acc[i], p0)
          {
            assert !Equals(acc[i], ps[0]);
          }
        }
        assert acc' == acc + [p0];
      }
      forall i, j | 0 <= i < |acc'| && 0 <= j < |ps[1..]|
        ensures !Equals(acc'[i], ps[1..][j])
      {
        if i < |acc| {
          assert ps[1..][j] == ps[j + 1];
        } else {
          assert acc'[i] == ps[0] && ps[1..][j] == ps[j + 1];
        }
      }
      SelectByMembers(acc', ps[1..], special);
      assert forall p :: p in ps <==> p == p0 || p in ps[1..];
    }
  }

  /** After an OR, plans with and without special courses are never mixed:
      when the combined plans hold a plan free of special courses, exactly
      those plans are kept, and otherwise all of them are. */
  lemma PreferRealMembers(ps: PlanSet)
    requires Distinct(ps)
    ensures (exists p :: p in ps && !HasSpecial(p)) ==>
      forall q :: q in PreferReal(ps) <==> q in ps && !HasSpecial(q)
    ensures (forall p :: p in ps ==> HasSpecial(p)) ==>
      forall q :: q in PreferReal(ps) <==> q in ps
  {
    SelectByMembers([], ps, false);
    SelectByMembers([], ps, true);
    var plain := SelectBy([], ps, false);
    if plain != [] {
      assert plain[0] in plain;
    }
  }

  /** A merge of two non-empty plans puts the plan whose last course is
      lexicographically smaller or equal first, so the merged plan ends
      with the greater of the two last courses. */
  lemma MergeLexOrder(left: Plan, right: Plan)
    requires !IsEmpty(left) && !IsEmpty(right)
    ensures var r := MergeLex(left, right);
      exists first, second ::
        && ((first == left && second == right) || (first == right && second == left))
        && r == Merge(first, second)
        && Text.CompareTo(HighestCourse(first), HighestCourse(second)) <= 0
  {
    Text.CompareToAntisymmetric(HighestCourse(left), HighestCourse(right));
    if Text.CompareTo(HighestCourse(left), HighestCourse(right)) > 0 {
      assert MergeLex(left, right) == Merge(right, left);
    } else {
      assert MergeLex(left, right) == Merge(left, right);
    }
  }

  /** No enumerated plan contains a planned course. */
  lemma {:induction false} GetPlansAvoidsPlanned(cat: Catalog, req: Req, planned: set<string>, rank: map<string, nat>, bound: nat)
    requires RankedAcyclic(cat, rank) && Below(rank, req, bound)
    ensures RuntimeFinder.AvoidsPlanned(GetPlans(cat, req, planned, rank, bound), planned)
    decreases bound, req, 0
  {
    match req
    case Unit(course, _) =>
      if course !in planned && !IsSpecial(course) && course in cat.hasPrereqs && course in cat.trees {
        GetPlansAvoidsPlanned(cat, cat.trees[course], planned, rank, RankOf(rank, course));
      }
    case Expr(op, l, r) =>
      GetPlansAvoidsPlanned(cat, l, planned, rank, bound);
      GetPlansAvoidsPlanned(cat, r, planned, rank, bound);
      if op == AND {
        AndPlansAvoidsPlanned(cat, [], GetPlans(cat, l, planned, rank, bound), r, planned, rank, bound);
      }
  }

  lemma {:induction false} AndPlansAvoidsPlanned(cat: Catalog, acc: PlanSet, lefts: PlanSet, right: Req, planned: set<string>,
                                                 rank: map<string, nat>, bound: nat)
    requires RankedAcyclic(cat, rank) && Below(rank, right, bound)
    requires RuntimeFinder.AvoidsPlanned(acc, planned) && RuntimeFinder.AvoidsPlanned(lefts, planned)
    ensures RuntimeFinder.AvoidsPlanned(AndPlans(cat, acc, lefts, right, planned, rank, bound), planned)
    decreases bound, right, |lefts| + 1
  {
    if lefts != [] {
      var l0 := lefts[0];
      var rights := GetPlans(cat, right, planned + CourseSet(l0), rank, bound);
      GetPlansAvoidsPlanned(cat, right, planned + CourseSet(l0), rank, bound);
      assert RuntimeFinder.AvoidsPlanned(MergeEach(acc, l0, rights), planned);
      AndPlansAvoidsPlanned(cat, MergeEach(acc, l0, rights), lefts[1..], right, planned, rank, bound);
    }
  }

  /** Every plan enumerated for a tree of AND and OR nodes, together with
      the planned courses, satisfies the tree. */
  lemma {:induction false} GetPlansSound(cat: Catalog, req: Req, planned: set<string>, rank: map<string, nat>, bound: nat)
    requires RankedAcyclic(cat, rank) && Below(rank, req, bound) && RuntimeFinder.OperatorsOnly(req)
    ensures RuntimeFinder.Satisfies(GetPlans(cat, req, planned, rank, bound), req, planned)
    decreases bound, req, 0
  {
    match req
    case Unit(course, _) =>
    case Expr(op, l, r) =>
      if op == OR {
        if RuntimeFinder.AlreadySatisfied(l, planned) || RuntimeFinder.AlreadySatisfied(r, planned) {
          assert planned + CourseSet(Empty()) == planned;
        } else {
          GetPlansSound(cat, l, planned, rank, bound);
          GetPlansSound(cat, r, planned, rank, bound);
          OrSound(GetPlans(cat, l, planned, rank, bound), GetPlans(cat, r, planned, rank, bound), l, r, planned);
        }
      } else {
        GetPlansSound(cat, l, planned, rank, bound);
        AndPlansSound(cat, [], GetPlans(cat, l, planned, rank, bound), l, r, planned, rank, bound);
      }
  }

  lemma OrSound(lp: PlanSet, rp: PlanSet, l: Req, r: Req, planned: set<string>)
    requires RuntimeFinder.Satisfies(lp, l, planned) && RuntimeFinder.Satisfies(rp, r, planned)
    ensures RuntimeFinder.Satisfies(PreferReal(InsertAll(InsertAll([], lp), rp)), Expr(OR, l, r), planned)
  {
  }

  lemma {:induction false} AndPlansSound(cat: Catalog, acc: PlanSet, lefts: PlanSet, left: Req, right: Req,
                                         planned: set<string>, rank: map<string, nat>, bound: nat)
    requires RankedAcyclic(cat, rank) && Below(rank, right, bound) && RuntimeFinder.OperatorsOnly(right)
    requires RuntimeFinder.Satisfies(acc, Expr(AND, left, right), planned)
    requires RuntimeFinder.Satisfies(lefts, left, planned)
    ensures RuntimeFinder.Satisfies(AndPlans(cat, acc, lefts, right, planned, rank, bound), Expr(AND, left, right), planned)
    decreases bound, right, |lefts| + 1
  {
    if lefts != [] {
      var l0 := lefts[0];
      var ctx := planned + CourseSet(l0);
      var rights := GetPlans(cat, right, ctx, rank, bound);
      GetPlansSound(cat, right, ctx, rank, bound);
      MergeEachSound(acc, l0, rights, left, right, planned);
      AndPlansSound(cat, MergeEach(acc, l0, rights), lefts[1..], left, right, planned, rank, bound);
    }
  }

  lemma {:induction false} MergeEachSound(acc: PlanSet, l0: Plan, rights: PlanSet, left: Req, right: Req, planned: set<string>)
    requires RuntimeFinder.Satisfies(acc, Expr(AND, left, right), planned)
    requires RuntimeFinder.AlreadySatisfied(left, planned + CourseSet(l0))
    requires RuntimeFinder.Satisfies(rights, right, planned + CourseSet(l0))
    ensures RuntimeFinder.Satisfies(MergeEach(acc, l0, rights), Expr(AND, left, right), planned)
    decreases |rights|
  {
    if rights != [] {
      var q := MergeLex(l0, rights[0]);
      var all := planned + CourseSet(q);
      RuntimeFinder.AlreadySatisfiedMonotone(left, planned + CourseSet(l0), all);
      RuntimeFinder.AlreadySatisfiedMonotone(right, planned + CourseSet(l0) + CourseSet(rights[0]), all);
      assert RuntimeFinder.Satisfies(Insert(acc, q), Expr(AND, left, right), planned);
      MergeEachSound(Insert(acc, q), l0, rights[1..], left, right, planned);
    }
  }

  /** Every AND result merges a left plan with a plan for the right side
      enumerated with the left plan's courses counted as planned. */
  lemma {:induction false} AndPlansMembers(cat: Catalog, acc: PlanSet, lefts: PlanSet, right: Req, planned: set<string>,
                                           rank: map<string, nat>, bound: nat)
    requires RankedAcyclic(cat, rank) && Below(rank, right, bound)
    ensures forall q :: q in AndPlans(cat, acc, lefts, right, planned, rank, bound) ==>
      q in acc || exists l, p :: l in lefts && p in GetPlans(cat, right, planned + CourseSet(l), rank, bound) && q == MergeLex(l, p)
    decreases |lefts|
  {
    if lefts != [] {
      var l0 := lefts[0];
      var rights := GetPlans(cat, right, planned + CourseSet(l0), rank, bound);
      AndPlansMembers(cat, MergeEach(acc, l0, rights), lefts[1..], right, planned, rank, bound);
      assert forall l :: l in lefts[1..] ==> l in lefts;
    }
  }

  /** The inner AND loop adds, by course set, the join of the left plan
      with each right plan. */
  lemma {:induction false} MergeEachKeys(acc: PlanSet, l0: Plan, rights: PlanSet)
    ensures Keys(MergeEach(acc, l0, rights)) == Keys(acc) + set q | q in rights :: CourseSet(l0) + CourseSet(q)
    decreases |rights|
  {
    if rights != [] {
      MergeEachKeys(Insert(acc, MergeLex(l0, rights[0])), l0, rights[1..]);
      assert forall q :: q in rights <==> q == rights[0] || q in rights[1..];
    }
  }

  /** No AND result is lost: the loop keeps what it held and adds, up to
      plan equality, the merge of every left plan with every plan for the
      right side enumerated with that left plan's courses counted as
      planned. */
  lemma {:induction false} AndPlansComplete(cat: Catalog, acc: PlanSet, lefts: PlanSet, right: Req, planned: set<string>,
                                            rank: map<string, nat>, bound: nat)
    requires RankedAcyclic(cat, rank) && Below(rank, right, bound)
    ensures Keys(acc) <= Keys(AndPlans(cat, acc, lefts, right, planned, rank, bound))
    ensures forall l, p :: l in lefts && p in GetPlans(cat, right, planned + CourseSet(l), rank, bound) ==>
      HasEqual(AndPlans(cat, acc, lefts, right, planned, rank, bound), MergeLex(l, p))
    decreases |lefts|
  {
    var r := AndPlans(cat, acc, lefts, right, planned, rank, bound);
    if lefts != [] {
      var l0 := lefts[0];
      var rights := GetPlans(cat, right, planned + CourseSet(l0), rank, bound);
      var mid := MergeEach(acc, l0, rights);
      MergeEachKeys(acc, l0, rights);
      AndPlansComplete(cat, mid, lefts[1..], right, planned, rank, bound);
      forall l, p | l in lefts && p in GetPlans(cat, right, planned + CourseSet(l), rank, bound)
        ensures HasEqual(r, MergeLex(l, p))
      {
        if l == l0 {
          assert CourseSet(MergeLex(l, p)) in Keys(r);
          KeyHasEqual(r, MergeLex(l, p));
        } else {
          assert l in lefts[1..];
        }
      }
    }
  }

  /** A plan whose course set is a key of `ps` has an equal plan in `ps`. */
  lemma KeyHasEqual(ps: PlanSet, p: Plan)
    requires CourseSet(p) in Keys(ps)
    ensures HasEqual(ps, p)
  {
    var q :| q in ps && CourseSet(q) == CourseSet(p);
    var i :| 0 <= i < |ps| && ps[i] == q;
    assert Equals(ps[i], p);
  }

  /** An AND node yields, up to plan equality, the merge of every plan of
      its left side with every plan of its right side enumerated after it. */
  lemma AndComplete(cat: Catalog, l: Req, r: Req, planned: set<string>, rank: map<string, nat>, bound: nat)
    requires RankedAcyclic(cat, rank) && Below(rank, Expr(AND, l, r), bound)
    ensures forall lp, rp :: lp in GetPlans(cat, l, planned, rank, bound) && rp in GetPlans(cat, r, planned + CourseSet(lp), rank, bound) ==>
      HasEqual(GetPlans(cat, Expr(AND, l, r), planned, rank, bound), MergeLex(lp, rp))
  {
    AndPlansComplete(cat, [], GetPlans(cat, l, planned, rank, bound), r, planned, rank, bound);
  }

  // ---------------------------------------------------------------------
  // The finder object.

  /** The plans enumerated for a target with prerequisites. */
  function TargetPlans(cat: Catalog, target: string, taken: set<string>, ghost rank: map<string, nat>): (r: PlanSet)
    requires AcyclicFrom(cat, rank, target)
    ensures Distinct(r) && r != []
  {
    match Lookup(cat, target)
    case None => [Empty()]
    case Some(tree) => GetPlans(cat, tree, taken, rank, RankOf(rank, target))
  }

  class LegacyPlanFinder {
    const data: Catalog
    const takenCourses: set<string>

    /** The taken set is copied as given. */
    constructor (data: Catalog, takenCourses: set<string>)
      ensures this.data == data && this.takenCourses == takenCourses
    {
      this.data := data;
      this.takenCourses := takenCourses;
    }

    /** `findPlans`: the enumerated plans, each with the target appended,
        sorted by size, plans of one size keeping their enumeration order. */
    method FindPlans(targetCourse: string, ghost rank: map<string, nat>) returns (result: seq<Plan>)
      requires targetCourse !in takenCourses && targetCourse in data.hasPrereqs ==> AcyclicFrom(data, rank, targetCourse)
      ensures targetCourse in takenCourses ==> result == [Empty()]
      ensures targetCourse !in takenCourses && targetCourse !in data.hasPrereqs ==>
        result == [Single(targetCourse)]
      ensures targetCourse !in takenCourses && targetCourse in data.hasPrereqs ==>
        && SortedBySize(result)
        && multiset(result) == multiset(AppendTo(TargetPlans(data, targetCourse, takenCourses, rank), targetCourse))
        && forall n: nat :: OfSize(result, n) == OfSize(AppendTo(TargetPlans(data, targetCourse, takenCourses, rank), targetCourse), n)
    {
      if targetCourse in takenCourses {
        return [Empty()];
      }
      if targetCourse !in data.hasPrereqs {
        return [Single(targetCourse)];
      }
      var prereqPlans := TargetPlans(data, targetCourse, takenCourses, rank);
      var unsorted: seq<Plan> := [];
      for i := 0 to |prereqPlans|
        invariant unsorted == AppendTo(prereqPlans[..i], targetCourse)
      {
        assert prereqPlans[..i + 1] == prereqPlans[..i] + [prereqPlans[i]];
        unsorted := unsorted + [Append(prereqPlans[i], targetCourse)];
      }
      assert prereqPlans[..|prereqPlans|] == prereqPlans;
      result := SortBySize(unsorted);
    }
  }

  /** Each plan with `course` appended, in order. */
  function AppendTo(ps: seq<Plan>, course: string): (r: seq<Plan>)
    ensures |r| == |ps|
    ensures forall i :: 0 <= i < |ps| ==> r[i] == Append(ps[i], course)
  {
    if ps == [] then [] else AppendTo(ps[..|ps| - 1], course) + [Append(ps[|ps| - 1], course)]
  }
}
