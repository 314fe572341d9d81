/** `Plan.sortTopologically` of the runtime solver: a depth-first post-order
    walk over the prerequisite links among a plan's own courses, with each
    special or permission leaf placed just before the course that needs it.
    `HashSet` iteration order is left open: each loop takes its next element
    by an arbitrary choice, so the properties hold for every order. */
module TopoSort {
  import opened Text
  import opened Requirements
  import opened Plans
  import opened Catalogs

  function Elems(s: seq<string>): set<string> {
    set x | x in s
  }

  /** `getPrereqsInPlan`: the leaves of the course's tree that are also
      courses of the plan; none when the course has no tree. */
  function PrereqsInPlan(cat: Catalog, planSet: set<string>, course: string): (r: set<string>)
    ensures r <= planSet
    ensures course in cat.trees ==> r == Leaves(cat.trees[course]) * planSet
    ensures course !in cat.trees ==> r == {}
  {
    if course in cat.trees then Leaves(cat.trees[course]) * planSet else {}
  }

  /** No course occurs twice. */
  ghost predicate NoDup(s: seq<string>) {
    forall x :: multiset(s)[x] <= 1
  }

  /** The first index at or after `i` holding a regular course, or `|s|`. */
  function NextRegular(s: seq<string>, i: nat): (r: nat)
    requires i <= |s|
    ensures i <= r <= |s|
    ensures r < |s| ==> !IsSpecial(s[r])
    ensures forall k :: i <= k < r ==> IsSpecial(s[k])
    decreases |s| - i
  {
    if i == |s| then |s| else if !IsSpecial(s[i]) then i else NextRegular(s, i + 1)
  }

  /** Every special entry is followed, after a run of specials only, by a
      regular course whose tree mentions it. */
  ghost predicate Anchored(cat: Catalog, planSet: set<string>, s: seq<string>) {
    forall i :: 0 <= i < |s| && IsSpecial(s[i]) ==>
      NextRegular(s, i) < |s| && s[i] in PrereqsInPlan(cat, planSet, s[NextRegular(s, i)])
  }

  /** `NextRegular` only looks as far as the first regular course. */
  lemma {:induction false} NextRegularPrefix(s: seq<string>, t: seq<string>, i: nat)
    requires i <= |s| <= |t| && t[..|s|] == s
    ensures NextRegular(s, i) < |s| ==> NextRegular(t, i) == NextRegular(s, i)
    ensures NextRegular(s, i) == |s| ==> NextRegular(t, i) == NextRegular(t, |s|)
    decreases |s| - i
  {
    if i < |s| {
      assert t[i] == s[i];
      NextRegularPrefix(s, t, i + 1);
    }
  }

  /** Every leaf of an emitted regular course's tree that is in the plan,
      special or regular as `special` says, comes before that course. */
  ghost predicate PrereqsBefore(cat: Catalog, planSet: set<string>, s: seq<string>, special: bool) {
    forall i, p :: 0 <= i < |s| && !IsSpecial(s[i]) && p in PrereqsInPlan(cat, planSet, s[i]) && IsSpecial(p) == special ==>
      p in s[..i]
  }

  /** The plan's part of the store is acyclic: every regular prerequisite,
      within the plan, of a regular course of the plan ranks strictly below
      it. The walk promises prerequisite order only then. */
  ghost predicate PlanAcyclic(cat: Catalog, rank: map<string, nat>, planSet: set<string>) {
    forall c, d :: c in planSet && !IsSpecial(c) && d in PrereqsInPlan(cat, planSet, c) && !IsSpecial(d) ==>
      RankOf(rank, d) < RankOf(rank, c)
  }

  /** The walk's state: `sorted` without repeats, inside `visited`, inside
      the plan; the visited courses not yet emitted (those whose visit is in
      progress) are all regular. */
  ghost predicate WalkState(cat: Catalog, planSet: set<string>, visited: set<string>, sorted: seq<string>) {
    && Elems(sorted) <= visited <= planSet
    && (forall x :: x in visited - Elems(sorted) ==> !IsSpecial(x))
    && NoDup(sorted)
    && Anchored(cat, planSet, sorted)
    && PrereqsBefore(cat, planSet, sorted, true)
  }

  lemma SubsetCard(a: set<string>, b: set<string>)
    requires a <= b
    ensures |a| <= |b|
  {
    assert b == a + (b - a);
  }

  /** Appending a block of specials owned by `course`, then `course`, keeps
      every special anchored. */
  lemma AnchoredExtend(cat: Catalog, planSet: set<string>, s: seq<string>, n: nat, course: string)
    requires n <= |s| && Anchored(cat, planSet, s[..n])
    requires forall k :: n <= k < |s| ==> IsSpecial(s[k]) && s[k] in PrereqsInPlan(cat, planSet, course)
    requires !IsSpecial(course)
    ensures Anchored(cat, planSet, s + [course])
  {
    var t := s + [course];
    assert t[..n] == s[..n];
    forall i | 0 <= i < |t| && IsSpecial(t[i])
      ensures NextRegular(t, i) < |t| && t[i] in PrereqsInPlan(cat, planSet, t[NextRegular(t, i)])
    {
      if i < n {
        assert IsSpecial(s[..n][i]);
        NextRegularPrefix(s[..n], t, i);
      } else {
        NextRegularTail(t, i);
      }
    }
  }

  lemma {:induction false} NextRegularTail(t: seq<string>, n: nat)
    requires 0 < |t| && n < |t| && !IsSpecial(t[|t| - 1])
    requires forall k :: n <= k < |t| - 1 ==> IsSpecial(t[k])
    ensures NextRegular(t, n) == |t| - 1
    decreases |t| - n
  {
    if n < |t| - 1 {
      NextRegularTail(t, n + 1);
    }
  }

  /** Appending a course after a block of specials keeps the prerequisites
      of every emitted course before it, given the course's own are. */
  lemma BeforeExtend(cat: Catalog, planSet: set<string>, s: seq<string>, n: nat, course: string, special: bool)
    requires n <= |s| && PrereqsBefore(cat, planSet, s[..n], special)
    requires forall k :: n <= k < |s| ==> IsSpecial(s[k])
    requires forall p :: p in PrereqsInPlan(cat, planSet, course) && IsSpecial(p) == special ==> p in s
    ensures PrereqsBefore(cat, planSet, s + [course], special)
  {
    var t := s + [course];
    forall i, p | 0 <= i < |t| && !IsSpecial(t[i]) && p in PrereqsInPlan(cat, planSet, t[i]) && IsSpecial(p) == special
      ensures p in t[..i]
    {
      if i < n {
        assert t[i] == s[..n][i];
        assert p in s[..n][..i];
        assert t[..i] == s[..n][..i];
      } else {
        assert i == |s|;
        assert t[..i] == s;
      }
    }
  }

  /** The last step of a visit: after the specials block, appending the
      course itself restores the walk state with the course emitted. */
  lemma FinishVisit(cat: Catalog, planSet: set<string>, course: string, active: set<string>,
                    visitedMid: set<string>, mid: seq<string>, visited': set<string>, block: seq<string>,
                    rank: map<string, nat>)
    requires !IsSpecial(course) && course in visitedMid
    requires WalkState(cat, planSet, visitedMid, mid)
    requires visitedMid - Elems(mid) == active + {course} && course !in active
    requires visitedMid <= visited' <= planSet
    requires Elems(mid + block) <= visited'
    requires visited' - Elems(mid + block) == visitedMid - Elems(mid)
    requires NoDup(mid + block)
    requires forall k :: 0 <= k < |block| ==> IsSpecial(block[k]) && block[k] in PrereqsInPlan(cat, planSet, course)
    requires forall p :: p in PrereqsInPlan(cat, planSet, course) && IsSpecial(p) ==> p in Elems(mid + block)
    requires PlanAcyclic(cat, rank, planSet) ==> PrereqsBefore(cat, planSet, mid, false)
    requires PlanAcyclic(cat, rank, planSet) ==> forall p :: p in PrereqsInPlan(cat, planSet, course) && !IsSpecial(p) ==> p in Elems(mid)
    ensures WalkState(cat, planSet, visited', mid + block + [course])
    ensures PlanAcyclic(cat, rank, planSet) ==> PrereqsBefore(cat, planSet, mid + block + [course], false)
    ensures visited' - Elems(mid + block + [course]) == active
  {
    var s := mid + block;
    var n := |mid|;
    assert s[..n] == mid;
    var t := s + [course];
    assert Elems(t) == Elems(s) + {course};
    assert course !in Elems(s);
    assert multiset(t) == multiset(s) + multiset{course};
    AnchoredExtend(cat, planSet, s, n, course);
    BeforeExtend(cat, planSet, s, n, course, true);
    if PlanAcyclic(cat, rank, planSet) {
      forall p | p in PrereqsInPlan(cat, planSet, course) && !IsSpecial(p)
        ensures p in s
      {
        assert p in mid;
      }
      BeforeExtend(cat, planSet, s, n, course, false);
    }
  }

  /** `topoVisit`: returns the new `visited` set and `sorted` list. `rank`
      only states what the walk achieves when the plan's part of the store
      is acyclic. */
  method TopoVisit(cat: Catalog, planSet: set<string>, course: string,
                   visited: set<string>, sorted: seq<string>, ghost rank: map<string, nat>)
    returns (visited': set<string>, sorted': seq<string>)
    requires course in planSet && !IsSpecial(course)
    requires WalkState(cat, planSet, visited, sorted)
    requires PlanAcyclic(cat, rank, planSet) ==> PrereqsBefore(cat, planSet, sorted, false)
    requires PlanAcyclic(cat, rank, planSet) ==> forall x :: x in visited - Elems(sorted) ==> RankOf(rank, course) < RankOf(rank, x)
    ensures WalkState(cat, planSet, visited', sorted')
    ensures PlanAcyclic(cat, rank, planSet) ==> PrereqsBefore(cat, planSet, sorted', false)
    ensures visited <= visited' && |sorted| <= |sorted'| && forall k :: 0 <= k < |sorted| ==> sorted'[k] == sorted[k]
    ensures Elems(sorted) <= Elems(sorted')
    ensures visited' - Elems(sorted') == visited - Elems(sorted)
    ensures course in visited'
    ensures course !in visited ==> course in Elems(sorted')
    ensures course !in visited ==> sorted' != [] && sorted'[|sorted'| - 1] == course
    ensures PlanAcyclic(cat, rank, planSet) ==> course in Elems(sorted')
    ensures PlanAcyclic(cat, rank, planSet) ==> forall x :: x in visited' - visited && !IsSpecial(x) ==> RankOf(rank, x) <= RankOf(rank, course)
    decreases |planSet - visited|, 2
  {
    if course in visited {
      if PlanAcyclic(cat, rank, planSet) {
        assert course !in visited - Elems(sorted);
      }
      return visited, sorted;
    }
    visited', sorted' := VisitNew(cat, planSet, course, visited, sorted, rank);
  }

  /** `topoVisit` past its visited check: the course is marked, its regular
      prerequisites are visited, its specials placed, and it is emitted. */
  method VisitNew(cat: Catalog, planSet: set<string>, course: string,
                  visited: set<string>, sorted: seq<string>, ghost rank: map<string, nat>)
    returns (visited': set<string>, sorted': seq<string>)
    requires course in planSet && !IsSpecial(course) && course !in visited
    requires WalkState(cat, planSet, visited, sorted)
    requires PlanAcyclic(cat, rank, planSet) ==> PrereqsBefore(cat, planSet, sorted, false)
    requires PlanAcyclic(cat, rank, planSet) ==> forall x :: x in visited - Elems(sorted) ==> RankOf(rank, course) < RankOf(rank, x)
    ensures WalkState(cat, planSet, visited', sorted')
    ensures PlanAcyclic(cat, rank, planSet) ==> PrereqsBefore(cat, planSet, sorted', false)
    ensures visited <= visited' && |sorted| <= |sorted'| && forall k :: 0 <= k < |sorted| ==> sorted'[k] == sorted[k]
    ensures Elems(sorted) <= Elems(sorted')
    ensures visited' - Elems(sorted') == visited - Elems(sorted)
    ensures course in visited' && course in Elems(sorted')
    ensures sorted' != [] && sorted'[|sorted'| - 1] == course
    ensures PlanAcyclic(cat, rank, planSet) ==> forall x :: x in visited' - visited && !IsSpecial(x) ==> RankOf(rank, x) <= RankOf(rank, course)
    decreases |planSet - visited|, 1
  {
    var prereqs := PrereqsInPlan(cat, planSet, course);
    MarkShrinks(planSet, visited, course);
    var visitedMid, mid := VisitRegularPrereqs(cat, planSet, course, prereqs, visited + {course}, sorted, rank);
    visited', sorted' := EmitCourse(cat, planSet, course, prereqs, visited, sorted, visitedMid, mid, rank);
  }

  /** The end of `topoVisit`, once the regular prerequisites are visited: the
      special prerequisites are placed and the course itself is appended. */
  method EmitCourse(cat: Catalog, planSet: set<string>, course: string, prereqs: set<string>,
                    ghost visited: set<string>, ghost sorted: seq<string>,
                    visitedMid: set<string>, mid: seq<string>, ghost rank: map<string, nat>)
    returns (visited': set<string>, sorted': seq<string>)
    requires prereqs == PrereqsInPlan(cat, planSet, course)
    requires course in planSet && !IsSpecial(course) && course !in visited
    requires Elems(sorted) <= visited && WalkState(cat, planSet, visitedMid, mid)
    requires PlanAcyclic(cat, rank, planSet) ==> PrereqsBefore(cat, planSet, mid, false)
    requires visited + {course} <= visitedMid && |sorted| <= |mid| && forall k :: 0 <= k < |sorted| ==> mid[k] == sorted[k]
    requires Elems(sorted) <= Elems(mid)
    requires visitedMid - Elems(mid) == (visited + {course}) - Elems(sorted)
    requires PlanAcyclic(cat, rank, planSet) ==> forall p :: p in prereqs && !IsSpecial(p) ==> p in Elems(mid)
    requires PlanAcyclic(cat, rank, planSet) ==> forall x :: x in visitedMid - (visited + {course}) && !IsSpecial(x) ==> RankOf(rank, x) < RankOf(rank, course)
    ensures WalkState(cat, planSet, visited', sorted')
    ensures PlanAcyclic(cat, rank, planSet) ==> PrereqsBefore(cat, planSet, sorted', false)
    ensures visited <= visited' && |sorted| <= |sorted'| && forall k :: 0 <= k < |sorted| ==> sorted'[k] == sorted[k]
    ensures Elems(sorted) <= Elems(sorted')
    ensures visited' - Elems(sorted') == visited - Elems(sorted)
    ensures course in visited' && course in Elems(sorted')
    ensures sorted' != [] && sorted'[|sorted'| - 1] == course
    ensures PlanAcyclic(cat, rank, planSet) ==> forall x :: x in visited' - visited && !IsSpecial(x) ==> RankOf(rank, x) <= RankOf(rank, course)
  {
    ghost var block;
    visited', sorted', block := PlaceSpecials(prereqs, visitedMid, mid);
    EmitKeepsWalk(cat, planSet, course, prereqs, visited, sorted, visitedMid, mid, visited', block, rank);
    sorted' := sorted' + [course];
  }

  /** What `EmitCourse` achieves, given what `PlaceSpecials` ensures. */
  lemma EmitKeepsWalk(cat: Catalog, planSet: set<string>, course: string, prereqs: set<string>,
                      visited: set<string>, sorted: seq<string>, visitedMid: set<string>, mid: seq<string>,
                      visited': set<string>, block: seq<string>, rank: map<string, nat>)
    requires prereqs == PrereqsInPlan(cat, planSet, course)
    requires course in planSet && !IsSpecial(course) && course !in visited
    requires Elems(sorted) <= visited && WalkState(cat, planSet, visitedMid, mid)
    requires PlanAcyclic(cat, rank, planSet) ==> PrereqsBefore(cat, planSet, mid, false)
    requires visited + {course} <= visitedMid && |sorted| <= |mid| && forall k :: 0 <= k < |sorted| ==> mid[k] == sorted[k]
    requires Elems(sorted) <= Elems(mid)
    requires visitedMid - Elems(mid) == (visited + {course}) - Elems(sorted)
    requires PlanAcyclic(cat, rank, planSet) ==> forall p :: p in prereqs && !IsSpecial(p) ==> p in Elems(mid)
    requires PlanAcyclic(cat, rank, planSet) ==> forall x :: x in visitedMid - (visited + {course}) && !IsSpecial(x) ==> RankOf(rank, x) < RankOf(rank, course)
    requires visitedMid <= visited' <= visitedMid + prereqs
    requires forall x :: x in visited' - visitedMid ==> IsSpecial(x)
    requires Elems(mid + block) <= visited'
    requires visited' - Elems(mid + block) == visitedMid - Elems(mid)
    requires NoDup(mid + block)
    requires forall k :: 0 <= k < |block| ==> IsSpecial(block[k]) && block[k] in prereqs
    requires forall p :: p in prereqs && IsSpecial(p) ==> p in Elems(mid + block)
    ensures WalkState(cat, planSet, visited', mid + block + [course])
    ensures PlanAcyclic(cat, rank, planSet) ==> PrereqsBefore(cat, planSet, mid + block + [course], false)
    ensures visited <= visited' && |sorted| <= |mid + block + [course]|
    ensures forall k :: 0 <= k < |sorted| ==> (mid + block + [course])[k] == sorted[k]
    ensures Elems(sorted) <= Elems(mid + block + [course])
    ensures visited' - Elems(mid + block + [course]) == visited - Elems(sorted)
    ensures course in visited' && course in Elems(mid + block + [course])
    ensures PlanAcyclic(cat, rank, planSet) ==> forall x :: x in visited' - visited && !IsSpecial(x) ==> RankOf(rank, x) <= RankOf(rank, course)
  {
    assert visitedMid - Elems(mid) == (visited - Elems(sorted)) + {course};
    FinishVisit(cat, planSet, course, visited - Elems(sorted), visitedMid, mid, visited', block, rank);
    KeepsPrefix(sorted, mid, block, course);
    RankAfterVisit(cat, planSet, rank, visited, visitedMid, visited', course);
  }

  /** The courses a visit marks are the course itself, regular courses ranked
      below it, and specials. */
  lemma RankAfterVisit(cat: Catalog, planSet: set<string>, rank: map<string, nat>, visited: set<string>,
                       visitedMid: set<string>, visited': set<string>, course: string)
    requires PlanAcyclic(cat, rank, planSet) ==> forall x :: x in visitedMid - (visited + {course}) && !IsSpecial(x) ==> RankOf(rank, x) < RankOf(rank, course)
    requires forall x :: x in visited' - visitedMid ==> IsSpecial(x)
    ensures PlanAcyclic(cat, rank, planSet) ==> forall x :: x in visited' - visited && !IsSpecial(x) ==> RankOf(rank, x) <= RankOf(rank, course)
  {
    if PlanAcyclic(cat, rank, planSet) {
      forall x | x in visited' - visited && !IsSpecial(x)
        ensures RankOf(rank, x) <= RankOf(rank, course)
      {
        if x != course {
          assert x in visitedMid - (visited + {course});
        }
      }
    }
  }

  /** Marking one more course of the plan leaves one fewer to visit. */
  lemma MarkShrinks(planSet: set<string>, visited: set<string>, course: string)
    requires course in planSet && course !in visited
    ensures |planSet - (visited + {course})| + 1 == |planSet - visited|
  {
    assert planSet - (visited + {course}) == (planSet - visited) - {course};
  }

  /** Appending after a list that extends `sorted` keeps `sorted` in front. */
  lemma KeepsPrefix(sorted: seq<string>, mid: seq<string>, block: seq<string>, course: string)
    requires |sorted| <= |mid| && forall k :: 0 <= k < |sorted| ==> mid[k] == sorted[k]
    requires Elems(sorted) <= Elems(mid)
    ensures |sorted| <= |mid + block + [course]|
    ensures forall k :: 0 <= k < |sorted| ==> (mid + block + [course])[k] == sorted[k]
    ensures Elems(sorted) <= Elems(mid + block + [course])
  {
    var t := mid + block + [course];
    assert forall k :: 0 <= k < |mid| ==> t[k] == mid[k];
  }

  /** The first loop of `topoVisit`: every regular course among `prereqs`
      is visited, in any order. */
  method VisitRegularPrereqs(cat: Catalog, planSet: set<string>, course: string, prereqs: set<string>,
                             visited: set<string>, sorted: seq<string>, ghost rank: map<string, nat>)
    returns (visited': set<string>, sorted': seq<string>)
    requires prereqs == PrereqsInPlan(cat, planSet, course)
    requires course in visited && course !in Elems(sorted) && !IsSpecial(course)
    requires WalkState(cat, planSet, visited, sorted)
    requires PlanAcyclic(cat, rank, planSet) ==> PrereqsBefore(cat, planSet, sorted, false)
    requires PlanAcyclic(cat, rank, planSet) ==> forall x :: x in visited - Elems(sorted) ==> RankOf(rank, course) <= RankOf(rank, x)
    ensures WalkState(cat, planSet, visited', sorted')
    ensures PlanAcyclic(cat, rank, planSet) ==> PrereqsBefore(cat, planSet, sorted', false)
    ensures visited <= visited' && |sorted| <= |sorted'| && forall k :: 0 <= k < |sorted| ==> sorted'[k] == sorted[k]
    ensures Elems(sorted) <= Elems(sorted')
    ensures visited' - Elems(sorted') == visited - Elems(sorted)
    ensures PlanAcyclic(cat, rank, planSet) ==> forall p :: p in prereqs && !IsSpecial(p) ==> p in Elems(sorted')
    ensures PlanAcyclic(cat, rank, planSet) ==> forall x :: x in visited' - visited && !IsSpecial(x) ==> RankOf(rank, x) < RankOf(rank, course)
    decreases |planSet - visited| + 1, 0
  {
    visited', sorted' := visited, sorted;
    var todo := prereqs;
    while todo != {}
      invariant todo <= prereqs
      invariant visited <= visited' <= planSet
      invariant |sorted'| >= |sorted| && forall k :: 0 <= k < |sorted| ==> sorted'[k] == sorted[k]
      invariant Elems(sorted) <= Elems(sorted')
      invariant WalkState(cat, planSet, visited', sorted')
      invariant visited' - Elems(sorted') == visited - Elems(sorted)
      invariant PlanAcyclic(cat, rank, planSet) ==> PrereqsBefore(cat, planSet, sorted', false)
      invariant PlanAcyclic(cat, rank, planSet) ==> forall p :: p in prereqs - todo && !IsSpecial(p) ==> p in Elems(sorted')
      invariant PlanAcyclic(cat, rank, planSet) ==> forall x :: x in visited' - visited && !IsSpecial(x) ==> RankOf(rank, x) < RankOf(rank, course)
      decreases todo
    {
      var p :| p in todo;
      todo := todo - {p};
      if !IsSpecial(p) {
        SubsetCard(planSet - visited', planSet - visited);
        visited', sorted' := TopoVisit(cat, planSet, p, visited', sorted', rank);
      }
    }
  }

  /** The second loop of `topoVisit`: each special of `prereqs` not yet
      visited is marked visited and emitted; `block` is what was emitted. */
  method PlaceSpecials(prereqs: set<string>, visited: set<string>, sorted: seq<string>)
    returns (visited': set<string>, sorted': seq<string>, ghost block: seq<string>)
    requires Elems(sorted) <= visited && NoDup(sorted)
    requires forall x :: x in visited - Elems(sorted) ==> !IsSpecial(x)
    ensures visited <= visited' <= visited + prereqs
    ensures forall x :: x in visited' - visited ==> IsSpecial(x)
    ensures sorted' == sorted + block
    ensures Elems(sorted') <= visited'
    ensures visited' - Elems(sorted') == visited - Elems(sorted)
    ensures NoDup(sorted')
    ensures forall k :: 0 <= k < |block| ==> IsSpecial(block[k]) && block[k] in prereqs
    ensures forall p :: p in prereqs && IsSpecial(p) ==> p in Elems(sorted')
  {
    visited', sorted', block := visited, sorted, [];
    var todo := prereqs;
    while todo != {}
      invariant todo <= prereqs
      invariant visited <= visited' <= visited + prereqs
      invariant forall x :: x in visited' - visited ==> IsSpecial(x)
      invariant sorted' == sorted + block
      invariant Elems(sorted') <= visited'
      invariant visited' - Elems(sorted') == visited - Elems(sorted)
      invariant NoDup(sorted')
      invariant forall k :: 0 <= k < |block| ==> IsSpecial(block[k]) && block[k] in prereqs
      invariant forall p :: p in prereqs - todo && IsSpecial(p) ==> p in Elems(sorted')
      decreases todo
    {
      var p :| p in todo;
      todo := todo - {p};
      if IsSpecial(p) && p !in visited' {
        assert multiset(sorted' + [p]) == multiset(sorted') + multiset{p};
        visited' := visited' + {p};
        sorted' := sorted' + [p];
        block := block + [p];
      }
    }
  }

  /** What `sortTopologically` promises of its output `s` for `plan`: no
      course twice, only courses of the plan, every regular course of the
      plan, each special immediately before (within a run of specials) a
      regular course that needs it, and every special a placed course needs
      placed before that course. */
  ghost predicate IsTopoOrder(cat: Catalog, plan: Plan, s: seq<string>) {
    var planSet := CourseSet(plan);
    && NoDup(s)
    && Elems(s) <= planSet
    && (forall c :: c in planSet && !IsSpecial(c) ==> c in s)
    && Anchored(cat, planSet, s)
    && PrereqsBefore(cat, planSet, s, true)
  }

  /** The last course of `s` is regular and ranks above every other
      regular course of `s`, as a target does above its own plan. */
  ghost predicate TopRanked(rank: map<string, nat>, s: seq<string>) {
    && s != []
    && !IsSpecial(s[|s| - 1])
    && forall k :: 0 <= k < |s| - 1 && !IsSpecial(s[k]) ==> RankOf(rank, s[k]) < RankOf(rank, s[|s| - 1])
  }

  /** The last course of `courses` ranks above every regular course visited
      before it is reached, and ends the output once every course is done. */
  ghost predicate LastStaysLast(rank: map<string, nat>, courses: seq<string>, i: nat,
                                visited: set<string>, sorted: seq<string>) {
    && courses != []
    && (i < |courses| ==> forall x :: x in visited && !IsSpecial(x) ==> RankOf(rank, x) < RankOf(rank, courses[|courses| - 1]))
    && (i == |courses| ==> sorted != [] && sorted[|sorted| - 1] == courses[|courses| - 1])
  }

  /** Visiting a regular course of the outer loop keeps `LastStaysLast`: a
      course visited before the last marks only courses ranked below the
      last, and the last, never marked before, ends the output once visited. */
  lemma LastStaysLastStep(rank: map<string, nat>, courses: seq<string>, i: nat,
                          visitedBefore: set<string>, sortedBefore: seq<string>,
                          visited: set<string>, sorted: seq<string>)
    requires TopRanked(rank, courses) && i < |courses| && !IsSpecial(courses[i])
    requires LastStaysLast(rank, courses, i, visitedBefore, sortedBefore)
    requires forall x :: x in visited - visitedBefore && !IsSpecial(x) ==> RankOf(rank, x) <= RankOf(rank, courses[i])
    requires courses[i] !in visitedBefore ==> sorted != [] && sorted[|sorted| - 1] == courses[i]
    ensures LastStaysLast(rank, courses, i + 1, visited, sorted)
  {
    var n := |courses|;
    if i < n - 1 {
      forall x | x in visited && !IsSpecial(x)
        ensures RankOf(rank, x) < RankOf(rank, courses[n - 1])
      {
        if x !in visitedBefore {
          assert RankOf(rank, x) <= RankOf(rank, courses[i]);
        }
      }
    } else {
      assert courses[i] !in visitedBefore;
    }
  }

  /** `sortTopologically`. When the plan's part of the store is acyclic,
      every regular prerequisite in the plan also comes before the course that needs it, and a last
      course that ranks above the rest stays last: nothing it needs is
      visited after it. */
  method SortTopologically(cat: Catalog, plan: Plan, ghost rank: map<string, nat>) returns (r: Plan)
    ensures IsTopoOrder(cat, plan, r.courses)
    ensures PlanAcyclic(cat, rank, CourseSet(plan)) ==> PrereqsBefore(cat, CourseSet(plan), r.courses, false)
    ensures PlanAcyclic(cat, rank, CourseSet(plan)) && TopRanked(rank, plan.courses) ==>
      r.courses != [] && r.courses[|r.courses| - 1] == plan.courses[|plan.courses| - 1]
  {
    ghost var n := |plan.courses|;
    var planSet := CourseSet(plan);
    ghost var top := PlanAcyclic(cat, rank, planSet) && TopRanked(rank, plan.courses);
    var sorted: seq<string> := [];
    var visited: set<string> := {};
    for i := 0 to |plan.courses|
      invariant WalkState(cat, planSet, visited, sorted)
      invariant visited - Elems(sorted) == {}
      invariant PlanAcyclic(cat, rank, planSet) ==> PrereqsBefore(cat, planSet, sorted, false)
      invariant forall k :: 0 <= k < i && !IsSpecial(plan.courses[k]) ==> plan.courses[k] in sorted
      invariant top ==> LastStaysLast(rank, plan.courses, i, visited, sorted)
    {
      var course := plan.courses[i];
      if !IsSpecial(course) {
        ghost var visitedBefore, sortedBefore := visited, sorted;
        visited, sorted := TopoVisit(cat, planSet, course, visited, sorted, rank);
        assert course in Elems(sorted) by {
          if course in visitedBefore {
            assert course !in visitedBefore - Elems(sortedBefore);
          }
        }
        forall k | 0 <= k < i && !IsSpecial(plan.courses[k])
          ensures plan.courses[k] in sorted
        {
          assert plan.courses[k] in Elems(sortedBefore);
        }
        if top {
          LastStaysLastStep(rank, plan.courses, i, visitedBefore, sortedBefore, visited, sorted);
        }
      } else if top {
        assert i + 1 < n;
        assert LastStaysLast(rank, plan.courses, i + 1, visited, sorted);
      }
    }
    r := Plan(sorted);
  }

  /** The sorted plan holds exactly the plan's regular courses and those of
      its specials that some regular course of the plan needs. */
  lemma TopoOrderMembers(cat: Catalog, plan: Plan, s: seq<string>)
    requires IsTopoOrder(cat, plan, s)
    ensures forall c :: c in s <==>
      c in CourseSet(plan) &&
      (!IsSpecial(c) || exists d :: d in CourseSet(plan) && !IsSpecial(d) && c in PrereqsInPlan(cat, CourseSet(plan), d))
  {
    var planSet := CourseSet(plan);
    forall c
      ensures c in s <==>
        c in planSet && (!IsSpecial(c) || exists d :: d in planSet && !IsSpecial(d) && c in PrereqsInPlan(cat, planSet, d))
    {
      if c in s && IsSpecial(c) {
        SpecialIsNeeded(cat, planSet, s, c);
      }
      if IsSpecial(c) && exists d :: d in planSet && !IsSpecial(d) && c in PrereqsInPlan(cat, planSet, d) {
        var d :| d in planSet && !IsSpecial(d) && c in PrereqsInPlan(cat, planSet, d);
        NeededSpecialIsPlaced(cat, planSet, s, c, d);
      }
    }
  }

  /** A special in an anchored sequence is there for some regular course. */
  lemma SpecialIsNeeded(cat: Catalog, planSet: set<string>, s: seq<string>, c: string)
    requires Anchored(cat, planSet, s) && Elems(s) <= planSet
    requires c in s && IsSpecial(c)
    ensures exists d :: d in planSet && !IsSpecial(d) && c in PrereqsInPlan(cat, planSet, d)
  {
    var i :| 0 <= i < |s| && s[i] == c;
    var d := s[NextRegular(s, i)];
    assert d in Elems(s);
  }

  /** A special that a regular course of the sequence needs comes before it. */
  lemma NeededSpecialIsPlaced(cat: Catalog, planSet: set<string>, s: seq<string>, c: string, d: string)
    requires PrereqsBefore(cat, planSet, s, true)
    requires d in s && !IsSpecial(d) && c in PrereqsInPlan(cat, planSet, d) && IsSpecial(c)
    ensures c in s
  {
    var i :| 0 <= i < |s| && s[i] == d;
    assert c in s[..i];
  }
}
