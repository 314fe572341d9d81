/** What the plan finders see of the requirement store (`PrereqData`): the
    courses that have a stored token string, and the trees those strings
    parse to. A course whose string does not parse has prerequisites but no
    tree, as `getRequirement` returns null for it. */
module Catalogs {
  import opened Wrappers
  import opened Text
  import opened Requirements

  datatype Catalog = Catalog(hasPrereqs: set<string>, trees: map<string, Req>)

  predicate Valid(cat: Catalog) {
    cat.trees.Keys <= cat.hasPrereqs
  }

  /** `getRequirement` as the finders see it. */
  function Lookup(cat: Catalog, course: string): (r: Option<Req>)
    ensures r.Some? <==> course in cat.trees
  {
    if course in cat.trees then Some(cat.trees[course]) else None
  }

  /** A special-requirement or permission leaf, recognised by the prefix of
      its normalised content. */
  predicate IsSpecial(content: string) {
    StartsWith(content, "SPECIAL") || StartsWith(content, "PERMISSION")
  }

  predicate IsPermission(content: string) {
    StartsWith(content, "PERMISSION")
  }

  function RankOf(rank: map<string, nat>, course: string): nat {
    if course in rank then rank[course] else 0
  }

  /** The ranked part of the store is acyclic: every regular leaf of a ranked
      course's tree is ranked too, strictly below the course. Courses off the
      rank are unconstrained, so the store may hold a cycle that no ranked
      course leads to. */
  ghost predicate RankedAcyclic(cat: Catalog, rank: map<string, nat>) {
    forall c, d :: c in cat.trees && c in rank && d in Leaves(cat.trees[c]) && !IsSpecial(d) ==>
      d in rank && RankOf(rank, d) < RankOf(rank, c)
  }

  /** Every regular leaf of `req` is ranked below `bound`. */
  ghost predicate Below(rank: map<string, nat>, req: Req, bound: nat) {
    forall d :: d in Leaves(req) && !IsSpecial(d) ==> d in rank && RankOf(rank, d) < bound
  }

  /** The enumeration from `target` reaches no cycle: the target's tree lies
      below the target's rank, and so does everything it leads to. */
  ghost predicate AcyclicFrom(cat: Catalog, rank: map<string, nat>, target: string) {
    && RankedAcyclic(cat, rank)
    && (target in cat.trees ==> Below(rank, cat.trees[target], RankOf(rank, target)))
  }

  /** Every course leaf occurring in some stored tree. */
  ghost function Universe(cat: Catalog): set<string> {
    set c, d | c in cat.trees && d in Leaves(cat.trees[c]) :: d
  }
}
