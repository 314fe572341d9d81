/** The immutable plan value (src/prereqsolver/Plan.java; the first 76 lines
    of src/prereqsolver/runtime/Plan.java are the same class), and the
    `HashSet<Plan>` collections the finders build from plans. */
module Plans {

  /** A plan is its course list; the Java class also caches the list's size
      and a `HashSet` of its courses, which are `Size` and `CourseSet`. */
  datatype Plan = Plan(courses: seq<string>)

  function CourseSet(p: Plan): set<string> {
    set c | c in p.courses
  }

  function Size(p: Plan): nat {
    |p.courses|
  }

  /** `Plan.empty()`. */
  function Empty(): (r: Plan)
    ensures Size(r) == 0 && CourseSet(r) == {}
  {
    Plan([])
  }

  /** `new Plan(List.of(course))`. */
  function Single(course: string): (r: Plan)
    ensures Size(r) == 1 && CourseSet(r) == {course}
  {
    Plan([course])
  }

  /** `Plan.merge`: the first plan's courses, then the second's. */
  function Merge(p1: Plan, p2: Plan): (r: Plan)
    ensures Size(r) == Size(p1) + Size(p2)
    ensures r.courses[..Size(p1)] == p1.courses && r.courses[Size(p1)..] == p2.courses
    ensures CourseSet(r) == CourseSet(p1) + CourseSet(p2)
  {
    Plan(p1.courses + p2.courses)
  }

  /** `append`: a new plan with `course` added at the end (the receiver, a
      value, is untouched). */
  function Append(p: Plan, course: string): (r: Plan)
    ensures Size(r) == Size(p) + 1
    ensures r.courses[..Size(p)] == p.courses && r.courses[Size(p)] == course
    ensures CourseSet(r) == CourseSet(p) + {course}
  {
    Plan(p.courses + [course])
  }

  predicate IsEmpty(p: Plan) {
    Size(p) == 0
  }

  predicate Contains(p: Plan, course: string) {
    course in CourseSet(p)
  }

  /** `highestCourse`: "" for the empty plan, otherwise the last course. */
  function HighestCourse(p: Plan): (r: string)
    ensures IsEmpty(p) ==> r == ""
    ensures !IsEmpty(p) ==> r in CourseSet(p)
  {
    if IsEmpty(p) then "" else p.courses[|p.courses| - 1]
  }

  /** `compareTo`: `Integer.compare` of the sizes. */
  function CompareTo(p: Plan, q: Plan): (r: int)
    ensures r == -1 || r == 0 || r == 1
    ensures r < 0 <==> Size(p) < Size(q)
    ensures r == 0 <==> Size(p) == Size(q)
  {
    if Size(p) < Size(q) then -1 else if Size(p) == Size(q) then 0 else 1
  }

  /** `equals`: plans are equal when their course sets are. */
  predicate Equals(p: Plan, q: Plan) {
    CourseSet(p) == CourseSet(q)
  }

  /** `String.hashCode` as an unsigned 32-bit pattern: h = 31 * h + c over
      the chars. */
  function StringHash(s: string): (r: nat)
    ensures r < 0x1_0000_0000
  {
    if s == [] then 0
    else (31 * StringHash(s[..|s| - 1]) + s[|s| - 1] as int) % 0x1_0000_0000
  }

  /** The plain sum of the members' hashes, one member split off at a time. */
  ghost function SetSum(s: set<string>): (r: nat)
    ensures s == {} ==> r == 0
  {
    if s == {} then 0
    else
      var c :| c in s;
      StringHash(c) + SetSum(s - {c})
  }

  /** The sum does not depend on the order of the members: any member may be
      split off first. */
  lemma {:induction false} SetSumAnyMember(s: set<string>, c: string)
    requires c in s
    ensures SetSum(s) == StringHash(c) + SetSum(s - {c})
    decreases |s|
  {
    var d :| d in s && SetSum(s) == StringHash(d) + SetSum(s - {d});
    if d != c {
      var rest := s - {d} - {c};
      assert s - {c} - {d} == rest;
      SetSumAnyMember(s - {d}, c);
      SetSumAnyMember(s - {c}, d);
    }
  }

  /** `AbstractSet.hashCode`: the members' hashes added with 32-bit
      wrap-around, which is their sum reduced once. */
  ghost function SetHash(s: set<string>): (r: nat)
    ensures r < 0x1_0000_0000
  {
    SetSum(s) % 0x1_0000_0000
  }

  /** Adding under the 32-bit wrap may reduce the second operand first. */
  lemma AddMod(a: int, y: int)
    ensures (a + y % 0x1_0000_0000) % 0x1_0000_0000 == (a + y) % 0x1_0000_0000
  {
    var m := 0x1_0000_0000;
    assert a + y == (a + y % m) + m * (y / m);
  }

  /** The set hash is the wrapping sum taken one member at a time, whichever
      member is taken first: `hashCode` does not depend on iteration order. */
  lemma SetHashAnyMember(s: set<string>, c: string)
    requires c in s
    ensures SetHash(s) == (StringHash(c) + SetHash(s - {c})) % 0x1_0000_0000
  {
    SetSumAnyMember(s, c);
    var rest := SetSum(s - {c});
    AddMod(StringHash(c), rest);
    assert SetHash(s - {c}) == rest % 0x1_0000_0000;
    assert SetHash(s) == (StringHash(c) + rest) % 0x1_0000_0000;
  }

  /** `hashCode`: the hash of the course set. */
  ghost function HashCode(p: Plan): nat {
    SetHash(CourseSet(p))
  }

  /** `isEmpty` holds exactly for the plan without courses. */
  lemma IsEmptyIff(p: Plan)
    ensures IsEmpty(p) <==> CourseSet(p) == {}
    ensures IsEmpty(p) <==> p == Empty()
  {
    if !IsEmpty(p) {
      assert p.courses[0] in CourseSet(p);
    }
  }

  /** The newest course of a plan is the one appended last. */
  lemma HighestIsLastAppended(p: Plan, course: string)
    ensures HighestCourse(Append(p, course)) == course
  {
  }

  /** Plan identity ignores order: a plan equals every plan with the same
      courses in another order or repeated, and equal plans hash alike. */
  lemma EqualsIgnoresOrder(p: Plan, q: Plan)
    requires forall c :: c in p.courses <==> c in q.courses
    ensures Equals(p, q) && HashCode(p) == HashCode(q)
  {
  }

  /** Merging in either order gives equal plans. */
  lemma MergeCommutesUpToEquals(p: Plan, q: Plan)
    ensures Equals(Merge(p, q), Merge(q, p))
  {
  }

  /** `compareTo` is antisymmetric and consistent with sizes. */
  lemma CompareToAntisymmetric(p: Plan, q: Plan)
    ensures CompareTo(p, q) == -CompareTo(q, p)
  {
  }

  // ---------------------------------------------------------------------
  // HashSet<Plan>: a sequence in iteration order holding no two equal
  // plans. `HashSet.add` keeps the plan already present, so the first
  // plan inserted for a course set is the one that stays.

  type PlanSet = seq<Plan>

  predicate Distinct(ps: PlanSet) {
    forall i, j :: 0 <= i < j < |ps| ==> !Equals(ps[i], ps[j])
  }

  /** The course sets a plan collection holds: what `HashSet` equality sees. */
  ghost function Keys(ps: PlanSet): set<set<string>> {
    set p | p in ps :: CourseSet(p)
  }

  predicate HasEqual(ps: PlanSet, p: Plan) {
    exists i :: 0 <= i < |ps| && Equals(ps[i], p)
  }

  /** `HashSet.add`. */
  function Insert(ps: PlanSet, p: Plan): (r: PlanSet)
    ensures Distinct(ps) ==> Distinct(r)
    ensures Keys(r) == Keys(ps) + {CourseSet(p)}
    ensures HasEqual(ps, p) ==> r == ps
    ensures !HasEqual(ps, p) ==> r == ps + [p]
  {
    if HasEqual(ps, p) then
      ghost var i :| 0 <= i < |ps| && Equals(ps[i], p);
      assert ps[i] in ps;
      ps
    else
      ps + [p]
  }

  /** `HashSet.addAll`, in the iteration order of `qs`. */
  function InsertAll(ps: PlanSet, qs: PlanSet): (r: PlanSet)
    ensures Distinct(ps) ==> Distinct(r)
    ensures Keys(r) == Keys(ps) + Keys(qs)
    ensures forall p :: p in r ==> p in ps || p in qs
    decreases |qs|
  {
    if qs == [] then ps
    else
      assert Keys(qs) == {CourseSet(qs[0])} + Keys(qs[1..]) by {
        assert forall p :: p in qs <==> p == qs[0] || p in qs[1..];
      }
      InsertAll(Insert(ps, qs[0]), qs[1..])
  }

  predicate SortedBySize(ps: seq<Plan>) {
    forall i, j :: 0 <= i < j < |ps| ==> Size(ps[i]) <= Size(ps[j])
  }

  /** The plans of `ps` of size `n`, in their order in `ps`. */
  function OfSize(ps: seq<Plan>, n: nat): (r: seq<Plan>)
    ensures |r| <= |ps|
  {
    if ps == [] then []
    else OfSize(ps[..|ps| - 1], n) + (if Size(ps[|ps| - 1]) == n then [ps[|ps| - 1]] else [])
  }

  lemma {:induction false} OfSizeAppend(a: seq<Plan>, b: seq<Plan>, n: nat)
    ensures OfSize(a + b, n) == OfSize(a, n) + OfSize(b, n)
    decreases |b|
  {
    if b != [] {
      var b' := b[..|b| - 1];
      assert (a + b)[..|a + b| - 1] == a + b';
      OfSizeAppend(a, b', n);
    } else {
      assert a + b == a;
    }
  }

  lemma {:induction false} OfSizeNone(ps: seq<Plan>, n: nat)
    requires forall k :: 0 <= k < |ps| ==> Size(ps[k]) != n
    ensures OfSize(ps, n) == []
    decreases |ps|
  {
    if ps != [] {
      OfSizeNone(ps[..|ps| - 1], n);
    }
  }

  /** `Collections.sort` with `compareTo`: a stable sort by size. Plans of
      the same size keep their relative order. */
  method SortBySize(plans: seq<Plan>) returns (sorted: seq<Plan>)
    ensures SortedBySize(sorted)
    ensures multiset(sorted) == multiset(plans)
    ensures forall n: nat :: OfSize(sorted, n) == OfSize(plans, n)
  {
    sorted := [];
    for k := 0 to |plans|
      invariant SortedBySize(sorted)
      invariant multiset(sorted) == multiset(plans[..k])
      invariant forall n: nat :: OfSize(sorted, n) == OfSize(plans[..k], n)
    {
      sorted := InsertBySize(sorted, plans[k]);
      assert plans[..k + 1] == plans[..k] + [plans[k]];
      assert plans[..k + 1][..k] == plans[..k];
    }
    assert plans[..|plans|] == plans;
  }

  /** Inserts `p` after every plan no larger than it. */
  method InsertBySize(sorted: seq<Plan>, p: Plan) returns (r: seq<Plan>)
    requires SortedBySize(sorted)
    ensures SortedBySize(r)
    ensures multiset(r) == multiset(sorted) + multiset{p}
    ensures forall n: nat :: OfSize(r, n) == OfSize(sorted, n) + (if Size(p) == n then [p] else [])
  {
    var i := |sorted|;
    while i > 0 && Size(sorted[i - 1]) > Size(p)
      invariant 0 <= i <= |sorted|
      invariant forall k :: i <= k < |sorted| ==> Size(sorted[k]) > Size(p)
    {
      i := i - 1;
    }
    r := sorted[..i] + [p] + sorted[i..];
    InsertKeepsSorted(sorted, p, i);
    InsertKeepsMembers(sorted, p, i);
    InsertKeepsOrder(sorted, p, i);
  }

  /** Inserting at any position adds exactly the one plan. */
  lemma InsertKeepsMembers(sorted: seq<Plan>, p: Plan, i: nat)
    requires i <= |sorted|
    ensures multiset(sorted[..i] + [p] + sorted[i..]) == multiset(sorted) + multiset{p}
  {
    assert sorted == sorted[..i] + sorted[i..];
  }

  lemma InsertKeepsSorted(sorted: seq<Plan>, p: Plan, i: nat)
    requires SortedBySize(sorted)
    requires i <= |sorted|
    requires i > 0 ==> Size(sorted[i - 1]) <= Size(p)
    requires forall k :: i <= k < |sorted| ==> Size(sorted[k]) > Size(p)
    ensures SortedBySize(sorted[..i] + [p] + sorted[i..])
  {
    var r := sorted[..i] + [p] + sorted[i..];
    forall a, b | 0 <= a < b < |r|
      ensures Size(r[a]) <= Size(r[b])
    {
      if b < i {
        assert r[a] == sorted[a] && r[b] == sorted[b];
      } else if b == i {
        assert r[a] == sorted[a];
        if a < i - 1 {
          assert Size(sorted[a]) <= Size(sorted[i - 1]);
        }
      } else if a < i {
        assert r[a] == sorted[a] && r[b] == sorted[b - 1];
      } else if a == i {
        assert r[b] == sorted[b - 1];
      } else {
        assert r[a] == sorted[a - 1] && r[b] == sorted[b - 1];
      }
    }
  }

  /** Inserting after the last plan no larger than `p` puts `p` after every
      plan of its own size, and moves no other plan past one of its size. */
  lemma InsertKeepsOrder(sorted: seq<Plan>, p: Plan, i: nat)
    requires i <= |sorted|
    requires forall k :: i <= k < |sorted| ==> Size(sorted[k]) > Size(p)
    ensures forall n: nat :: OfSize(sorted[..i] + [p] + sorted[i..], n) == OfSize(sorted, n) + (if Size(p) == n then [p] else [])
  {
    forall n: nat
      ensures OfSize(sorted[..i] + [p] + sorted[i..], n) == OfSize(sorted, n) + (if Size(p) == n then [p] else [])
    {
      InsertKeepsOrderOf(sorted[..i], sorted[i..], p, n);
      assert sorted[..i] + sorted[i..] == sorted;
    }
  }

  lemma InsertKeepsOrderOf(front: seq<Plan>, back: seq<Plan>, p: Plan, n: nat)
    requires forall k :: 0 <= k < |back| ==> Size(back[k]) > Size(p)
    ensures OfSize(front + [p] + back, n) == OfSize(front + back, n) + (if Size(p) == n then [p] else [])
  {
    OfSizeAppend(front + [p], back, n);
    OfSizeAppend(front, back, n);
    assert (front + [p])[..|front + [p]| - 1] == front;
    if Size(p) == n {
      OfSizeNone(back, n);
    }
  }
}
