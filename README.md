# PrereqSolver in Dafny

A model of the core of PrereqSolver. PrereqSolver is a course-prerequisite planner.

- **Data model.** Catalogue prerequisites are stored as token strings such as
  `LPAREN COURSE(CS 1110) OR COURSE(CS 1112) RPAREN AND COURSE(MATH 1920)`.
  They are parsed into AND/OR requirement trees.
- **Enumeration.** For a target course and a set of taken courses, the solver lists every plan: a sequence of courses to take.
  - A plan ends with the target.
  - It holds what the target's requirement still needs, with each course preceded by the courses it needs.
  - Informal "special requirement" and "permission" leaves are placed just before the course they gate.

The model covers:

- **Requirements** (`Requirements`, `Tokens`):
  - the requirement tree (`Unit`, `Expression`) and its satisfaction;
  - the token record and its rendering.
- **Plans** (`Plans`, `TopoSort`):
  - the plan value;
  - the `HashSet<Plan>` collections the finders build;
  - the depth-first topological sort of a plan (`Plan.sortTopologically` / `topoVisit`).
- **Plan finders** (`RuntimeFinder`, `LegacyFinder`):
  - `RuntimeFinder` is the runtime finder. Its constructor closes the taken set under prerequisites. Its enumeration prunes ORs, threads the AND context, merges by course number and sorts.
  - `LegacyFinder` is the older finder. It filters special plans after each OR and merges by string order.
- **Requirement store** (`PrereqStore`, `Catalogs`):
  - the row filter of the tab-separated file;
  - the lazy parse cache;
  - the course-leaf walk;
  - the view of the store the finders use.
- **Parsers** (`TokenStringParsing`, `TokenParsing`, `ParserAgreement`):
  - the string parser with its cursor;
  - the token-queue parser with its current token;
  - the agreement of the two parsers on the text written for a token list.
- **Tokenizer list passes** (`TokenizerPasses`), which run after the scanner:
  - orphaned parentheses;
  - the "or permission" wrap;
  - comma resolution;
  - dangling operators;
  - the sequence validator.
- **Catalogue JSON scanner** (`CatalogLoading`):
  - brace matching that is aware of strings and escapes;
  - string-field extraction;
  - the object loop;
  - the prerequisite map built from it.

How the Java is written decides how each part is modelled:

- **Classes whose fields the Java updates** are Dafny classes whose methods are proved against functions:
  - `PlanFinder` with `takenCourses`;
  - `PrereqData` with `tokenStrings` and `cache`;
  - `TokenStringParser` with `pos`;
  - `Parser` with the current token and queue.
- **Loops that build lists** are methods with loop invariants. This covers the tokenizer passes, the JSON scanner, the row loop and the topological walk.
- **Immutable values and pure recursion** are datatypes and functions.

`src/prereqsolver/Plan.java` and `src/prereqsolver/runtime/Plan.java` are the same code in lines 1-76, so one `Plans` module serves both.

The store can contain cycles, and `getPlans` has no guard against them. It recurses without end once it follows a cycle all the way round. An `alreadyPlanned` hit, a satisfied OR side or an OR that skips a direct special stops it only when one of them cuts the cycle first. The enumeration members therefore take a ghost `rank` on the courses the enumeration reaches from the target:
- `Catalogs.RankedAcyclic`: every regular leaf of a ranked course's tree is ranked, strictly below the course.
- `Catalogs.AcyclicFrom`: the target's own tree lies below the target's rank.

Courses off the rank are unconstrained, so a cycle elsewhere in the store is allowed. The rank and its `bound` only measure the recursion; they change no result. `findPlans` needs the rank only when it enumerates: a taken target, or one without prerequisites, returns before any recursion. The topological sort needs no rank to terminate. It promises prerequisite order when the plan's own part of the store is acyclic (`TopoSort.PlanAcyclic`), and every enumerated plan meets that.

## Model

| member | source | states |
|---|---|---|
| Tokens.TypeName | src/prereqsolver/Token.java:6-20 | Each token type prints as its enum name, a non-empty run of capital letters |
| Tokens.TypeNameInjective | src/prereqsolver/Token.java:6-20 | Different token types print differently |
| Tokens.Bare | src/prereqsolver/Token.java:28-30 | The one-argument constructor gives a token of that type with no literal |
| Tokens.ToStringInjective | src/prereqsolver/Token.java:33-38 | `toString` (`TYPE(literal)`, or the bare name) loses nothing: two tokens that print alike are the same token |
| Requirements.NewUnitWithPass | src/prereqsolver/Unit.java:20-24 | The stored content is the argument trimmed and upper-cased, normalising it again changes nothing, and the flag is kept |
| Requirements.NewUnit | src/prereqsolver/Unit.java:15-17 | The one-argument constructor is the two-argument one with no automatic pass |
| Requirements.UnitRendersContent | src/prereqsolver/Unit.java:33-40 | `getContent` and `toString` both give the normalised content |
| Requirements.ToString | src/main/java/Expression.java:40-43 | A leaf renders as its content; a node renders bracketed, starting with `(` and ending with `)` |
| Requirements.RenderingParenthesised | src/main/java/Expression.java:40-43 | The rendering is fully parenthesised: with parenthesis-free leaf contents it holds one `(` and one `)` per AND/OR node, one pair fewer than leaves |
| Requirements.NewExpression | src/main/java/Expression.java:14-21 | Construction succeeds exactly for AND and OR and keeps operator and children as given, which is what the getters return; any other operator is the IllegalArgumentException case |
| Requirements.ShortCircuitAgrees | src/main/java/Expression.java:24-38 | The short-circuit evaluation always equals the full boolean meaning of the tree |
| Requirements.SatisfiedCases | src/prereqsolver/Unit.java:27-31 | A leaf is satisfied exactly when it passes automatically or its content is taken; an AND node needs both children, an OR node at least one |
| Requirements.SatisfiedMonotone | src/main/java/Requirement.java:18 | Taking more courses never un-satisfies a requirement |
| Requirements.HoldsMonotone | src/main/java/Requirement.java:18 | The boolean meaning of a tree is monotone in the taken set |
| Requirements.Leaves | src/prereqsolver/runtime/Plan.java:149-160 | A leaf's contents are its own content; a node's include both children's |
| Requirements.AllLeavesSatisfy | src/main/java/Requirement.java:18 | Taking every leaf of a tree satisfies it |
| Text.TrimStart | src/prereqsolver/Unit.java:22 | Everything cut off is a char up to U+0020, and the result does not start with one |
| Text.TrimStartIsSuffix | src/prereqsolver/Unit.java:22 | The result is a suffix of the input, so only leading chars are removed |
| Text.TrimEnd | src/prereqsolver/Unit.java:22 | The result is a prefix, only trailing chars up to U+0020 are removed, and it does not end with one |
| Text.Trim | src/prereqsolver/Unit.java:22 | `String.trim` leaves neither end on a char up to U+0020 |
| Text.TrimIsInfix | src/prereqsolver/Unit.java:22 | `String.trim` returns the infix of its input left after removing a run of leading and a run of trailing chars up to U+0020 |
| Text.ToUpper | src/prereqsolver/Unit.java:22 | Same length, every char upper-cased |
| Text.ToLower | src/main/java/Tokenizer.java:449 | Same length, every char lower-cased |
| Text.NormalizeIdempotent | src/prereqsolver/Unit.java:22 | Trimming and upper-casing a second time changes nothing |
| Text.IndexOf | src/prereqsolver/CatalogLoader.java:132 | -1, or a position at or after the start where the pattern occurs |
| Text.IndexOfFirst | src/prereqsolver/CatalogLoader.java:132 | That position is the first occurrence, and -1 means there is none |
| Text.IndexOfChar | src/prereqsolver/CatalogLoader.java:65 | -1, or a position at or after the start holding the char |
| Text.IndexOfCharFirst | src/prereqsolver/CatalogLoader.java:65 | That position is the first one, and -1 means there is none |
| Text.CompareTo | src/main/java/PlanFinder.java:162 | `String.compareTo` is zero exactly for equal strings |
| Text.CompareToAntisymmetric | src/main/java/PlanFinder.java:162 | Swapping the arguments negates the result |
| Plans.Empty | src/prereqsolver/runtime/Plan.java:19-21 | `empty()` has size 0 and no courses |
| Plans.Single | src/prereqsolver/runtime/Plan.java:13-17 | A plan built from a one-course list has size 1 and exactly that course |
| Plans.Merge | src/prereqsolver/runtime/Plan.java:23-28 | The first plan's list followed by the second's; sizes add and course sets unite |
| Plans.Append | src/prereqsolver/runtime/Plan.java:30-34 | The old list unchanged with the course added at the end; the size grows by one |
| Plans.IsEmptyIff | src/prereqsolver/runtime/Plan.java:40-42 | `isEmpty` holds exactly for the plan without courses, which is `empty()` |
| Plans.HighestCourse | src/prereqsolver/runtime/Plan.java:52-55 | `""` for the empty plan, otherwise a course of the plan |
| Plans.HighestIsLastAppended | src/prereqsolver/Plan.java:52-55 | The highest course is the one appended last |
| Plans.CompareTo | src/prereqsolver/runtime/Plan.java:57-60 | -1, 0 or 1, following the sizes only |
| Plans.CompareToAntisymmetric | src/prereqsolver/Plan.java:57-60 | Swapping the plans negates the comparison |
| Plans.StringHash | src/prereqsolver/runtime/Plan.java:74-76 | `String.hashCode` wraps to 32 bits |
| Plans.SetHash | src/prereqsolver/runtime/Plan.java:74-76 | The set hash, the members' hashes added with 32-bit wrap-around, is a 32-bit value |
| Plans.SetSumAnyMember | src/prereqsolver/runtime/Plan.java:74-76 | The unreduced sum of the members' hashes is the same whichever member is taken first |
| Plans.SetHashAnyMember | src/prereqsolver/runtime/Plan.java:74-76 | The hash is the wrapping sum taken one member at a time, with any member first: it does not depend on the order of the members |
| Plans.EqualsIgnoresOrder | src/prereqsolver/Plan.java:67-76 | Plans with the same courses, in any order or repeated, are equal and hash alike |
| Plans.MergeCommutesUpToEquals | src/prereqsolver/runtime/Plan.java:23-28 | Merging in either order gives equal plans |
| Plans.Insert | src/main/java/PlanFinder.java:167 | `HashSet.add`: no two equal plans are ever held; a plan equal to a member changes nothing, any other is added last; the course sets held grow by the plan's |
| Plans.InsertAll | src/main/java/PlanFinder.java:123-125 | `addAll`: the course sets held are the union, and every member comes from one of the two collections |
| Plans.SortBySize | src/prereqsolver/runtime/PlanFinder.java:91 | `Collections.sort` with `compareTo`: ascending by size, a permutation of the input, and stable: for every size the plans of that size keep their input order |
| Plans.InsertBySize | src/prereqsolver/runtime/PlanFinder.java:91 | One insertion step keeps the list sorted and adds exactly the one plan, after every plan of its own size |
| Plans.InsertKeepsSorted | src/prereqsolver/runtime/PlanFinder.java:91 | Inserting after the last plan no larger keeps the list ascending by size |
| Plans.OfSizeAppend | src/prereqsolver/runtime/PlanFinder.java:91 | The plans of one size in a concatenation are those of each part, in order |
| Plans.InsertKeepsOrder | src/prereqsolver/runtime/PlanFinder.java:91 | Inserting after the last plan no larger than `p` adds `p` behind every plan of its size and moves no plan past another of the same size |
| Catalogs.Lookup | src/prereqsolver/PrereqData.java:84-105 | A tree is found exactly for the courses whose string parsed |
| TopoSort.PrereqsInPlan | src/prereqsolver/runtime/Plan.java:128-144 | The leaves of the course's tree that are in the plan; none when the course has no tree |
| TopoSort.SortTopologically | src/prereqsolver/runtime/Plan.java:82-94 | The output: no course twice, only plan courses, every regular course, each special placed in the run of specials just before a course that needs it; when the plan's part of the store is acyclic every regular prerequisite comes first, and a regular last course ranked above every other regular course of the plan comes out last |
| TopoSort.LastStaysLastStep | src/prereqsolver/runtime/Plan.java:87-91 | While the last course ranks above the rest, each outer step marks only courses ranked below it, and visiting it, never marked before, ends the output with it |
| TopoSort.TopoOrderMembers | src/prereqsolver/runtime/Plan.java:86-119 | The sorted plan holds exactly the regular courses of the plan and the specials some regular course of the plan needs |
| TopoSort.TopoVisit | src/prereqsolver/runtime/Plan.java:99-123 | Keeps the walk invariant (no repeats, only plan courses, only regular courses in progress); the output only grows at its end; the course is marked visited and, when the plan's part of the store is acyclic, emitted after its prerequisites; a first visit ends the output with the course, and when the plan's part of the store is acyclic marks no regular course ranked above it |
| TopoSort.VisitNew | src/prereqsolver/runtime/Plan.java:101-122 | An unvisited course is marked and emitted last, its prerequisites come before it, and when the plan's part of the store is acyclic no regular course ranked above it is marked |
| TopoSort.VisitRegularPrereqs | src/prereqsolver/runtime/Plan.java:107-111 | Every regular prerequisite in the plan is emitted (when the plan's part of the store is acyclic), in any set order, keeping the walk invariant and marking only regular courses ranked below the course |
| TopoSort.PlaceSpecials | src/prereqsolver/runtime/Plan.java:114-119 | Each special prerequisite not yet visited is marked and emitted once; only specials are marked, and the block emitted holds only those specials |
| TopoSort.FinishVisit | src/prereqsolver/runtime/Plan.java:122 | Emitting the course after its specials restores the walk invariant, with the course no longer in progress |
| TopoSort.EmitCourse | src/prereqsolver/runtime/Plan.java:113-122 | Once the regular prerequisites are visited, the specials are placed and the course is appended last; the walk invariant holds again, the output only grows at its end, and when the plan's part of the store is acyclic every prerequisite precedes the course and no regular course ranked above it is marked |
| TopoSort.EmitKeepsWalk | src/prereqsolver/runtime/Plan.java:113-122 | From what placing the specials leaves, appending the course restores the walk invariant, keeps the earlier output as a prefix and keeps the rank bound on marked courses |
| TopoSort.RankAfterVisit | src/prereqsolver/runtime/Plan.java:101-119 | The courses one visit marks are the course itself, regular courses ranked below it, and specials |
| TopoSort.SpecialIsNeeded | src/prereqsolver/runtime/Plan.java:113-119 | A special in an anchored order is a prerequisite, in the plan, of some regular course of the plan |
| TopoSort.NeededSpecialIsPlaced | src/prereqsolver/runtime/Plan.java:113-119 | A special prerequisite, in the plan, of a regular course in the order is itself in the order |
| RuntimeFinder.ExtractCourseNumber | src/prereqsolver/runtime/PlanFinder.java:237-243 | -1 exactly when the code holds no digit, a non-negative number otherwise |
| RuntimeFinder.CourseNumberOfCode | src/prereqsolver/runtime/PlanFinder.java:237-243 | A code made of a digit-free subject, a number and a tail not starting with a digit yields that number |
| RuntimeFinder.DigitsRoundTrip | src/prereqsolver/runtime/PlanFinder.java:240 | Reading back the decimal digits of a number gives the number |
| RuntimeFinder.IntCompare | src/prereqsolver/runtime/PlanFinder.java:227 | `Integer.compare`: -1, 0 or 1, negative and zero exactly for less and equal |
| RuntimeFinder.CompareByNumber | src/prereqsolver/runtime/PlanFinder.java:222-231 | By course number when both codes have one; otherwise zero exactly for equal strings |
| RuntimeFinder.CompareByNumberAntisymmetric | src/prereqsolver/runtime/PlanFinder.java:222-231 | Swapping the codes negates the comparison |
| RuntimeFinder.MergeOrdered | src/prereqsolver/runtime/PlanFinder.java:198-207 | The merged plan has both course sets and both sizes |
| RuntimeFinder.MergeOrderedByNumber | src/prereqsolver/runtime/PlanFinder.java:198-207 | Of two numbered non-empty plans, the one whose newest course has the lower number goes first |
| RuntimeFinder.AppendEach | src/prereqsolver/runtime/PlanFinder.java:143-148 | Every result is an input plan with the course appended; none is lost and no two are equal |
| RuntimeFinder.GetPlans | src/prereqsolver/runtime/PlanFinder.java:98-110 | There is always at least one plan, and no two are equal |
| RuntimeFinder.AndPlans | src/prereqsolver/runtime/PlanFinder.java:188-211 | The AND loop keeps the plans pairwise unequal and yields at least one plan |
| RuntimeFinder.MergeEach | src/prereqsolver/runtime/PlanFinder.java:198-208 | Every result merges the left plan with some right plan |
| RuntimeFinder.OrCases | src/prereqsolver/runtime/PlanFinder.java:155-176 | An OR with a side already satisfied gives only the empty plan; with exactly one side a direct special, only the other side is explored |
| RuntimeFinder.OrKeys | src/prereqsolver/runtime/PlanFinder.java:178-185 | Otherwise the OR yields, by course set, the plans of either side |
| RuntimeFinder.AndKeys | src/prereqsolver/runtime/PlanFinder.java:188-211 | An AND yields, by course set, every union of a left plan with a right plan enumerated with that left plan's courses counted as planned |
| RuntimeFinder.CrossKeysMembers | src/prereqsolver/runtime/PlanFinder.java:192-196 | A course set is among those exactly when it joins some left plan with some right plan enumerated after it |
| RuntimeFinder.AlreadySatisfiedMonotone | src/prereqsolver/runtime/PlanFinder.java:259-277 | More planned courses keep a satisfied requirement satisfied |
| RuntimeFinder.AlreadySatisfiedImpliesHolds | src/prereqsolver/runtime/PlanFinder.java:259-277 | `isAlreadySatisfied` implies the tree's boolean meaning |
| RuntimeFinder.SatisfiedNeedsNothing | src/prereqsolver/runtime/PlanFinder.java:119-123 | A requirement the planned courses already satisfy gets exactly the empty plan |
| RuntimeFinder.GetPlansAvoidsPlanned | src/prereqsolver/runtime/PlanFinder.java:118-122 | No plan contains a course that was already planned |
| RuntimeFinder.AndPlansAvoidsPlanned | src/prereqsolver/runtime/PlanFinder.java:193-196 | The AND loop adds no planned course, although each right side is enumerated with more courses counted as planned |
| RuntimeFinder.GetPlansSound | src/prereqsolver/runtime/PlanFinder.java:98-216 | Every plan, together with the planned courses, satisfies an AND/OR tree |
| RuntimeFinder.AndPlansSound | src/prereqsolver/runtime/PlanFinder.java:188-211 | Every AND result satisfies both sides |
| RuntimeFinder.MergeEachSound | src/prereqsolver/runtime/PlanFinder.java:198-208 | Each merge of a left plan with a right plan satisfies the AND node |
| RuntimeFinder.GetPlansWellShaped | src/prereqsolver/runtime/PlanFinder.java:140-148 | No plan lists a course twice, and every regular course of it is ranked below the bound |
| RuntimeFinder.TargetPlans | src/prereqsolver/runtime/PlanFinder.java:81-82 | The target's enumeration holds at least one plan, no two equal |
| RuntimeFinder.TargetPlansSound | src/prereqsolver/runtime/PlanFinder.java:81-90 | Every plan for a target avoids the taken courses, repeats nothing once the target is appended, and with the taken courses satisfies the target's tree |
| RuntimeFinder.TargetPlansTopRanked | src/prereqsolver/runtime/PlanFinder.java:81-86 | When no cycle is reachable from the target, a regular target ranks above every regular course of each of its plans, so it is the top-ranked course once appended |
| RuntimeFinder.TargetPlansPlanAcyclic | src/prereqsolver/runtime/PlanFinder.java:81-87 | Each enumerated plan with the target appended lies in an acyclic part of the store, so the topological sort orders it by prerequisites |
| RuntimeFinder.ExpansionIsLeastClosed | src/prereqsolver/runtime/PlanFinder.java:25-30 | The expanded set contains the given one, is closed under non-PERMISSION prerequisites, and lies inside every closed superset |
| RuntimeFinder.ExpansionOfClosed | src/prereqsolver/runtime/PlanFinder.java:25-30 | Expanding a closed set, in particular an expanded one, changes nothing |
| RuntimeFinder.ExpansionUnique | src/prereqsolver/runtime/PlanFinder.java:25-30 | Any closed superset built only from implied courses is the expansion: the result does not depend on the visiting order |
| RuntimeFinder.ExpansionMonotone | src/prereqsolver/runtime/PlanFinder.java:25-30 | More taken courses expand to more |
| RuntimeFinder.ExpansionTakesPrereqs | src/prereqsolver/runtime/PlanFinder.java:35-39 | Every non-PERMISSION leaf of a taken course's tree counts as taken |
| RuntimeFinder.ExpansionAddsNoPermission | src/prereqsolver/runtime/PlanFinder.java:49-52 | Expansion adds no PERMISSION leaf that was not given |
| RuntimeFinder.PlanFinder.constructor | src/prereqsolver/runtime/PlanFinder.java:14-18 | The taken set becomes the expansion of the given one |
| RuntimeFinder.PlanFinder.ExpandTakenCourses | src/prereqsolver/runtime/PlanFinder.java:25-30 | The loop over the original courses turns the taken set into its expansion |
| RuntimeFinder.PlanFinder.AddAllPrereqs | src/prereqsolver/runtime/PlanFinder.java:35-39 | The set only grows, with implied courses only, and the course becomes done (its tree's leaves are taken) |
| RuntimeFinder.PlanFinder.AddAllFromTree | src/prereqsolver/runtime/PlanFinder.java:45-62 | Every non-PERMISSION leaf of the tree is taken afterwards, and every course added is done |
| RuntimeFinder.PlanFinder.AddLeaf | src/prereqsolver/runtime/PlanFinder.java:46-57 | A PERMISSION leaf is skipped; any other leaf is taken, and its own prerequisites are walked the first time |
| RuntimeFinder.PlanFinder.FindPlans | src/prereqsolver/runtime/PlanFinder.java:67-93 | A taken target gives `[empty]`, a target without prerequisites `[[target]]`; otherwise the result is sorted by size and is a permutation of the enumerated plans, each with the target appended and put in topological order, plans of one size keeping their enumeration order; for a regular target every plan ends with the target |
| RuntimeFinder.PlanFinder.OrderEach | src/prereqsolver/runtime/PlanFinder.java:84-89 | One ordered plan per enumerated plan: a topological order of it with the target appended, ending with the target whenever the target ranks above the rest |
| RuntimeFinder.PlanFinder.GetPlansFor | src/prereqsolver/runtime/PlanFinder.java:98-110 | A missing tree gives `{empty}`; otherwise the result is the enumeration function's |
| RuntimeFinder.PlanFinder.GetPlansForUnit | src/prereqsolver/runtime/PlanFinder.java:115-149 | The leaf case, equal to the enumeration function |
| RuntimeFinder.PlanFinder.GetPlansForExpression | src/prereqsolver/runtime/PlanFinder.java:154-216 | The node case, equal to the enumeration function |
| RuntimeFinder.PlanFinder.AndLoop | src/prereqsolver/runtime/PlanFinder.java:189-210 | The nested AND loops compute exactly the AND enumeration |
| LegacyFinder.SelectBy | src/main/java/PlanFinder.java:131-139 | The partition loop keeps only plans of the requested kind, pairwise unequal; it returns nothing only when it was given nothing to keep |
| LegacyFinder.SelectByMembers | src/main/java/PlanFinder.java:131-139 | Selecting keeps exactly the plans of the requested kind |
| LegacyFinder.PreferReal | src/main/java/PlanFinder.java:141-145 | The result is drawn from the plans given, pairwise unequal, and not empty when plans were given |
| LegacyFinder.PreferRealMembers | src/main/java/PlanFinder.java:127-145 | When some plan is free of specials, exactly those plans are kept, and otherwise all of them: the two kinds are never mixed |
| LegacyFinder.MergeLex | src/main/java/PlanFinder.java:159-166 | The merged plan has both course sets and both sizes |
| LegacyFinder.MergeLexOrder | src/main/java/PlanFinder.java:159-166 | Of two non-empty plans, the one whose last course is lexicographically smaller or equal goes first |
| LegacyFinder.GetPlans | src/main/java/PlanFinder.java:51-63 | There is always at least one plan, and no two are equal |
| LegacyFinder.PlannedNeedsNothing | src/main/java/PlanFinder.java:72-76 | A planned unit, and an OR with a satisfied side, give exactly the empty plan |
| LegacyFinder.AndPlans | src/main/java/PlanFinder.java:148-170 | The AND loop keeps plans pairwise unequal and yields at least one plan |
| LegacyFinder.MergeEach | src/main/java/PlanFinder.java:158-168 | Every result merges the left plan with some right plan; there is one when there are right plans |
| LegacyFinder.AndPlansMembers | src/main/java/PlanFinder.java:148-170 | Every AND result merges a left plan with a right plan enumerated with that left plan's courses counted as planned |
| LegacyFinder.MergeEachKeys | src/main/java/PlanFinder.java:158-168 | By course set, the inner loop adds exactly the union of the left plan with each right plan |
| LegacyFinder.AndPlansComplete | src/main/java/PlanFinder.java:148-170 | No AND result is lost: up to plan equality the loop holds the merge of every left plan with every right plan enumerated after it |
| LegacyFinder.KeyHasEqual | src/main/java/PlanFinder.java:167 | A plan whose course set is held has an equal plan in the set |
| LegacyFinder.AndComplete | src/main/java/PlanFinder.java:148-171 | An AND node yields, up to plan equality, the merge of every left plan with every right plan enumerated with that left plan counted as planned |
| LegacyFinder.GetPlansAvoidsPlanned | src/main/java/PlanFinder.java:72-76 | No plan contains a course already planned |
| LegacyFinder.AndPlansAvoidsPlanned | src/main/java/PlanFinder.java:152-156 | The AND loop adds no planned course |
| LegacyFinder.GetPlansSound | src/main/java/PlanFinder.java:107-176 | Every plan, with the planned courses, satisfies an AND/OR tree |
| LegacyFinder.OrSound | src/main/java/PlanFinder.java:120-145 | Filtering the union of both sides keeps every plan satisfying the OR |
| LegacyFinder.AndPlansSound | src/main/java/PlanFinder.java:148-170 | Every AND result satisfies both sides |
| LegacyFinder.MergeEachSound | src/main/java/PlanFinder.java:158-168 | Each merge satisfies the AND node |
| LegacyFinder.TargetPlans | src/main/java/PlanFinder.java:36-37 | The target's plans are at least one and pairwise unequal |
| LegacyFinder.AppendTo | src/main/java/PlanFinder.java:39-42 | Each plan with the target appended, in order |
| LegacyFinder.LegacyPlanFinder.constructor | src/main/java/PlanFinder.java:14-17 | The taken set is kept as given, without expansion |
| LegacyFinder.LegacyPlanFinder.FindPlans | src/main/java/PlanFinder.java:22-46 | A taken target gives `[empty]`, a target without prerequisites `[[target]]`; otherwise a permutation of the enumerated plans with the target appended, sorted by size, plans of one size keeping their enumeration order |
| PrereqStore.Pieces | src/prereqsolver/PrereqData.java:56 | There is always at least one piece |
| PrereqStore.PiecesJoin | src/prereqsolver/PrereqData.java:56 | The pieces hold no tab and join back to the line |
| PrereqStore.JoinPieces | src/prereqsolver/PrereqData.java:56 | Joining tab-free fields and splitting again gives the fields back |
| PrereqStore.DropTrailingEmpty | src/prereqsolver/PrereqData.java:56 | `split` drops exactly the trailing empty pieces |
| PrereqStore.SplitFields | src/prereqsolver/PrereqData.java:56-64 | A line of at least four tab-free fields, the fourth non-empty, splits into those fields |
| PrereqStore.RowOf | src/prereqsolver/PrereqData.java:56-70 | A loaded row has a non-empty, trimmed token string |
| PrereqStore.RowOfFields | src/prereqsolver/PrereqData.java:56-70 | A four-field line loads exactly when its trimmed status starts with "OK" and its trimmed tokens are not empty, giving the trimmed code and tokens |
| PrereqStore.Rows | src/prereqsolver/PrereqData.java:48-71 | One reading per line |
| PrereqStore.ReadRow | src/prereqsolver/PrereqData.java:56-70 | The field reads of one line are the row filter |
| PrereqStore.LoadedNext | src/prereqsolver/PrereqData.java:67-70 | A loaded row puts (or replaces) its course; other rows change nothing |
| PrereqStore.LoadedIffRow | src/prereqsolver/PrereqData.java:48-71 | A course is loaded exactly when some line after the header loads it |
| PrereqStore.LoadedLastRow | src/prereqsolver/PrereqData.java:68 | The stored string is that of the last line loading the course |
| PrereqStore.LoadedTrimmed | src/prereqsolver/PrereqData.java:63-67 | Every stored string is trimmed and non-empty |
| PrereqStore.CatalogOf | src/prereqsolver/PrereqData.java:84-112 | What the finders see: a course has prerequisites exactly when it has a stored string, and its tree is what `getRequirement` answers |
| PrereqStore.NoTreeMeansParseFailure | src/prereqsolver/PrereqData.java:97-104 | A course with prerequisites has no tree exactly when its string fails to parse |
| PrereqStore.PrereqData.constructor | src/prereqsolver/PrereqData.java:32-38 | The map is loaded from the lines and the cache starts empty |
| PrereqStore.PrereqData.LoadTsv | src/prereqsolver/PrereqData.java:43-75 | The map holds what the loaded rows give, and the course set is its keys |
| PrereqStore.PrereqData.GetRequirement | src/prereqsolver/PrereqData.java:84-105 | No tree without a string; otherwise the parsed tree; only a successful first parse is cached; nothing else changes |
| PrereqStore.PrereqData.HasPrereqs | src/prereqsolver/PrereqData.java:110-112 | Membership in the course set |
| PrereqStore.PrereqData.GetTokenString | src/prereqsolver/PrereqData.java:124-126 | A string exactly for the courses with prerequisites, trimmed and non-empty |
| PrereqStore.PrereqData.Size | src/prereqsolver/PrereqData.java:131-133 | The number of courses with prerequisites |
| PrereqStore.PrereqData.GetCoursesWithPrereqs | src/prereqsolver/PrereqData.java:117-119 | Exactly the loaded course codes |
| PrereqStore.CourseLeavesAreRegularLeaves | src/prereqsolver/PrereqData.java:145-156 | The collected codes are the leaves that are neither specials nor permissions |
| PrereqStore.ExtractCoursesHelper | src/prereqsolver/PrereqData.java:145-156 | Adds exactly the tree's course leaves to the set |
| PrereqStore.ExtractCourses | src/prereqsolver/PrereqData.java:139-143 | Exactly the leaf contents starting with neither "SPECIAL" nor "PERMISSION" |
| TokenStringParsing.SkipWs | src/prereqsolver/TokenStringParser.java:109-113 | The first position at or after the cursor not on Java whitespace |
| TokenStringParsing.SkipWsIdempotent | src/prereqsolver/TokenStringParser.java:109-113 | Skipping twice is skipping once |
| TokenStringParsing.Keyword | src/prereqsolver/TokenStringParser.java:118-125 | After the whitespace: a match moves past the keyword; no match leaves the cursor after the whitespace; a cursor past the end is the out-of-bounds case |
| TokenStringParsing.CloseParen | src/prereqsolver/TokenStringParser.java:89-95 | The depth scan stops on a `)` or at the end |
| TokenStringParsing.ParseExprAt | src/prereqsolver/TokenStringParser.java:41-51 | A parse moves forward and yields an AND/OR tree of normalised leaves |
| TokenStringParsing.ParseOrTermAt | src/prereqsolver/TokenStringParser.java:56-66 | As above, for or-terms |
| TokenStringParsing.ParseUnitAt | src/prereqsolver/TokenStringParser.java:71-104 | As above, for units |
| TokenStringParsing.GroupAt | src/prereqsolver/TokenStringParser.java:75-82 | As above, for a group after its LPAREN |
| TokenStringParsing.CourseAt | src/prereqsolver/TokenStringParser.java:85-101 | As above, for a `COURSE(` leaf |
| TokenStringParsing.CourseStep | src/prereqsolver/TokenStringParser.java:85-101 | A leaf's content runs to the balancing parenthesis, trimmed and normalised, and the cursor ends past it |
| TokenStringParsing.ParseTokenString | src/prereqsolver/TokenStringParser.java:30-36 | A blank string gives no tree, and nothing else does; a tree is well formed |
| TokenStringParsing.ParseRendered | src/prereqsolver/TokenStringParser.java:12-15 | Parsing the canonical rendering of a tree gives the tree back |
| TokenStringParsing.ExprRoundTrip | src/prereqsolver/TokenStringParser.java:41-51 | The rendering of a tree, anywhere in a text, parses to the tree and stops after it |
| TokenStringParsing.OrTermRoundTrip | src/prereqsolver/TokenStringParser.java:56-66 | The same for or-terms |
| TokenStringParsing.UnitRoundTrip | src/prereqsolver/TokenStringParser.java:71-104 | The same for units |
| TokenStringParsing.RenderExpr | src/prereqsolver/TokenStringParser.java:12-15 | The canonical token string of a tree is not empty and starts and ends on a keyword char (`C`/`L`, then `)`/`N`), never on whitespace |
| TokenStringParsing.LeafRoundTrip | src/prereqsolver/TokenStringParser.java:85-101 | A written `COURSE(c)` leaf parses to that leaf and stops after its parenthesis |
| TokenStringParsing.GroupRoundTrip | src/prereqsolver/TokenStringParser.java:75-82 | A written group parses to its inner tree and stops after RPAREN |
| TokenStringParsing.OrNodeRoundTrip | src/prereqsolver/TokenStringParser.java:56-66 | A written OR chain not followed by OR parses back to its tree |
| TokenStringParsing.AndNodeRoundTrip | src/prereqsolver/TokenStringParser.java:41-51 | A written AND chain followed by neither OR nor AND parses back to its tree |
| TokenStringParsing.OrBindsTighter | src/prereqsolver/TokenStringParser.java:12-15 | `a OR b AND c` parses as `(a OR b) AND c` |
| TokenStringParsing.AndNestsRight | src/prereqsolver/TokenStringParser.java:45-47 | `a AND b AND c` parses as `a AND (b AND c)` |
| TokenStringParsing.TrailingTextIgnored | src/prereqsolver/TokenStringParser.java:30-35 | Text after a complete expression is not checked |
| TokenStringParsing.UnclosedGroup | src/prereqsolver/TokenStringParser.java:78-80 | A group without RPAREN fails, naming the position where RPAREN was due |
| TokenStringParsing.GroupUnclosed | src/prereqsolver/TokenStringParser.java:78-80 | After a complete inner expression, a missing RPAREN fails at the position after the whitespace |
| TokenStringParsing.OrOverrun | src/prereqsolver/TokenStringParser.java:118-121 | A unit that left the cursor past the end makes the following OR match fail, so the whole parse fails |
| TokenStringParsing.UnterminatedCourse | src/prereqsolver/TokenStringParser.java:89-98 | A `COURSE(` never closed pushes the cursor past the end, and the next keyword match fails |
| TokenStringParsing.NoUnitAtStart | src/prereqsolver/TokenStringParser.java:103 | Input starting with neither LPAREN nor `COURSE(` fails at position 0 |
| TokenStringParsing.TokenStringParser.constructor | src/prereqsolver/TokenStringParser.java:22-25 | The input is stored trimmed with the cursor at 0 |
| TokenStringParsing.TokenStringParser.ParseExpr | src/prereqsolver/TokenStringParser.java:41-51 | Agrees with the parse function: the same tree and cursor, or the same error |
| TokenStringParsing.TokenStringParser.ParseOrTerm | src/prereqsolver/TokenStringParser.java:56-66 | Agrees with the parse function |
| TokenStringParsing.TokenStringParser.ParseUnit | src/prereqsolver/TokenStringParser.java:71-104 | Agrees with the parse function |
| TokenStringParsing.TokenStringParser.ScanToClose | src/prereqsolver/TokenStringParser.java:89-95 | The depth loop ends where the scan function says |
| TokenStringParsing.TokenStringParser.SkipWhitespace | src/prereqsolver/TokenStringParser.java:109-113 | The cursor moves past the whitespace |
| TokenStringParsing.TokenStringParser.MatchKeyword | src/prereqsolver/TokenStringParser.java:118-125 | Matches exactly when the keyword follows the whitespace; the cursor moves accordingly; a cursor past the end is the `substring` failure |
| TokenParsing.Start | src/prereqsolver/Parser.java:25-28 | The first token is polled; an empty queue gives `null` |
| TokenParsing.Feed | src/prereqsolver/Parser.java:108-111 | The next token is polled; an exhausted queue gives EOF |
| TokenParsing.Advance | src/prereqsolver/Parser.java:104-112 | `consume` advances exactly on the expected type, and otherwise reports the mismatch (or the `null` token) |
| TokenParsing.ParseExprFrom | src/prereqsolver/Parser.java:49-59 | A parse consumes tokens, yields a well-formed tree, and stops on a token that is not AND |
| TokenParsing.ParseOrTermFrom | src/prereqsolver/Parser.java:64-74 | As above; it stops on a token that is not OR |
| TokenParsing.ParseUnitFrom | src/prereqsolver/Parser.java:79-99 | As above; a current token that is neither COURSE nor LPAREN, or `null`, is an error |
| TokenParsing.ParseFrom | src/prereqsolver/Parser.java:35-44 | Succeeds exactly when the expression parses and EOF follows |
| TokenParsing.ParseTokens | src/prereqsolver/Parser.java:25-44 | An empty queue fails; a tree is well formed |
| TokenParsing.ExprRoundTrip | src/prereqsolver/Parser.java:49-59 | A tree's tokens, followed by anything that does not continue an expression, parse to the tree |
| TokenParsing.OrTermRoundTrip | src/prereqsolver/Parser.java:64-74 | The same for or-terms |
| TokenParsing.UnitRoundTrip | src/prereqsolver/Parser.java:79-96 | The same for units |
| TokenParsing.ParseTokensRoundTrip | src/prereqsolver/Parser.java:35-44 | A tree's tokens parse to it, whether the queue runs out or holds EOF |
| TokenParsing.GroupAddsNoNode | src/prereqsolver/Parser.java:91-96 | Parentheses add no node |
| TokenParsing.GroupRoundTrip | src/prereqsolver/Parser.java:91-96 | LPAREN, the tokens of a tree and RPAREN parse to that tree, with the queue resumed after RPAREN |
| TokenParsing.OrBindsTighter | src/prereqsolver/Parser.java:8-18 | `A OR B AND C` is `(A OR B) AND C` |
| TokenParsing.AndNestsRight | src/prereqsolver/Parser.java:49-59 | `A AND B AND C` is `A AND (B AND C)` |
| TokenParsing.OrNestsRight | src/prereqsolver/Parser.java:64-74 | `A OR B OR C` is `A OR (B OR C)` |
| TokenParsing.TrailingTokenRejected | src/prereqsolver/Parser.java:39-41 | A token other than EOF after a whole expression is an error |
| TokenParsing.UnclosedGroupFails | src/prereqsolver/Parser.java:94 | A missing RPAREN fails on the EOF of the exhausted queue |
| TokenParsing.NoneIsAutoPass | src/prereqsolver/Parser.java:80-88 | A COURSE literal becomes its normalised leaf, passed automatically exactly when it is "None" in any case |
| TokenParsing.NullLiteralFails | src/prereqsolver/Parser.java:85 | A COURSE token without a literal fails |
| TokenParsing.NotAUnitFails | src/prereqsolver/Parser.java:98 | A queue starting with neither COURSE nor LPAREN fails at once |
| TokenParsing.Parser.constructor | src/prereqsolver/Parser.java:25-28 | The state is the first poll of the queue |
| TokenParsing.Parser.Parse | src/prereqsolver/Parser.java:35-44 | The result is the parse function's |
| TokenParsing.Parser.ParseExpr | src/prereqsolver/Parser.java:49-59 | Agrees with the parse function: the same tree and state, or the same error |
| TokenParsing.Parser.ParseOrTerm | src/prereqsolver/Parser.java:64-74 | Agrees with the parse function |
| TokenParsing.Parser.ParseUnit | src/prereqsolver/Parser.java:79-99 | Agrees with the parse function |
| TokenParsing.Parser.Consume | src/prereqsolver/Parser.java:104-112 | On a match the next token is polled (EOF when exhausted); on a mismatch the error is returned and nothing changes |
| ParserAgreement.TokenString | src/prereqsolver/PrereqProcessor.java:67-74 | The text of a list starting with a non-EOF token is not empty |
| ParserAgreement.TokenStringAppend | src/prereqsolver/PrereqProcessor.java:67-74 | The text of two lists joined is their texts joined by one space |
| ParserAgreement.TrailingEof | src/prereqsolver/PrereqProcessor.java:69 | A final EOF adds nothing to the text |
| ParserAgreement.ExprText | src/prereqsolver/PrereqProcessor.java:67-74 | The text written for a tree's tokens is the tree's canonical token string |
| ParserAgreement.ParsersAgree | src/prereqsolver/TokenStringParser.java:12-15 | The token parser on a tree's tokens and the string parser on their written text both give the tree |
| TokenizerPasses.Only | src/main/java/Tokenizer.java:397-431 | Filtering never lengthens a list |
| TokenizerPasses.OnlyAppend | src/main/java/Tokenizer.java:397-431 | Filtering distributes over concatenation |
| TokenizerPasses.OrphansRemoved | src/main/java/Tokenizer.java:397-431 | The pass never lengthens the list |
| TokenizerPasses.RemoveOrphanedParens | src/main/java/Tokenizer.java:397-431 | The loop drops exactly the orphaned parentheses, judged by their neighbours in the input |
| TokenizerPasses.OrphanRemovalKeepsOthers | src/main/java/Tokenizer.java:397-431 | Every token that is not a parenthesis survives, in order |
| TokenizerPasses.NoParensUnchanged | src/main/java/Tokenizer.java:397-431 | A list without parentheses is unchanged |
| TokenizerPasses.OrphanRemovalKeepsLast | src/main/java/Tokenizer.java:397-431 | A final token that is not a parenthesis (the EOF) stays last |
| TokenizerPasses.FirstOrPermission | src/main/java/Tokenizer.java:441-453 | The first OR followed by a COURSE whose lower-cased literal starts with "permission", or none |
| TokenizerPasses.FindOrPermission | src/main/java/Tokenizer.java:441-453 | The search loop finds that position, or -1 exactly when there is none |
| TokenizerPasses.StripTrailingCommas | src/main/java/Tokenizer.java:461-465 | A prefix not ending in COMMA, with only commas removed |
| TokenizerPasses.DropTrailingCommas | src/main/java/Tokenizer.java:461-465 | The while loop removes exactly the trailing commas |
| TokenizerPasses.AppendFrom | src/main/java/Tokenizer.java:477-479 | The rest of the list is copied after the front |
| TokenizerPasses.WrapBeforeOrPermission | src/main/java/Tokenizer.java:439-482 | The list with the part before the first OR-permission, trailing commas dropped, wrapped in parentheses when not empty |
| TokenizerPasses.NoPermissionNoWrap | src/main/java/Tokenizer.java:455-458 | Without an OR-permission the list is unchanged |
| TokenizerPasses.PermissionWrapKeepsTarget | src/main/java/Tokenizer.java:467-479 | The wrap adds no OR-permission: the first one in the output is the same OR, just after the closing parenthesis |
| TokenizerPasses.WrapSingleCourse | tests/prereqsolver/TokenizerTest.java:82-91 | A course before "or permission" is parenthesised |
| TokenizerPasses.Flushed | src/main/java/Tokenizer.java:607-616 | The buffer with each COMMA replaced by the given operator, everything else kept |
| TokenizerPasses.FlushBuffer | src/main/java/Tokenizer.java:607-616 | The flush appends the replaced buffer to the output and empties the buffer |
| TokenizerPasses.FlushedNoComma | src/main/java/Tokenizer.java:607-616 | A buffer without commas is flushed unchanged |
| TokenizerPasses.BufferContainsAnd | src/main/java/Tokenizer.java:595-602 | True exactly when the buffer holds an AND |
| TokenizerPasses.ResolveCommas | src/main/java/Tokenizer.java:525-590 | The loop's output is the comma resolution of the list |
| TokenizerPasses.ResolveSettled | src/main/java/Tokenizer.java:583-585 | Only COURSE, COMMA and parentheses are ever buffered, and no COMMA, SLASH or PERIOD is ever emitted |
| TokenizerPasses.BufferNeverHasAnd | src/main/java/Tokenizer.java:543-544 | `bufferContainsAnd` is always false where it is called, so commas flushed by OR become OR |
| TokenizerPasses.CommasResolvedClean | src/main/java/Tokenizer.java:525-590 | The output holds no COMMA, SLASH or PERIOD |
| TokenizerPasses.ResolveKeepsOrder | src/main/java/Tokenizer.java:525-590 | On a list ending in EOF, every token other than commas, operators, slashes and periods comes out, in order |
| TokenizerPasses.CommaFreeSentence | src/main/java/Tokenizer.java:571-581 | A sentence without commas or slashes loses only its final period |
| TokenizerPasses.CourseCommaCourseBuffered | src/main/java/Tokenizer.java:582-585 | Courses and commas are only buffered |
| TokenizerPasses.CommaBeforePeriodIsAnd | tests/prereqsolver/TokenizerTest.java:62-68 | "A, B." resolves to A AND B |
| TokenizerPasses.CommaBeforeOrIsOr | tests/prereqsolver/TokenizerTest.java:37-44 | "A, B, or ..." resolves to A OR B, the comma before OR dropped |
| TokenizerPasses.TrailingOrDropped | tests/prereqsolver/TokenizerTest.java:37-44 | The OR left before EOF is then removed as dangling |
| TokenizerPasses.DanglingRemoved | src/main/java/Tokenizer.java:488-513 | The pass never lengthens the list |
| TokenizerPasses.RemoveDanglingOperators | src/main/java/Tokenizer.java:488-513 | The loop drops exactly the operators that are last or precede EOF, PERIOD, an operator or RPAREN |
| TokenizerPasses.DanglingRemovedIsClean | src/main/java/Tokenizer.java:488-513 | No dangling operator remains |
| TokenizerPasses.NoDanglingUnchanged | src/main/java/Tokenizer.java:488-513 | A list without dangling operators is unchanged |
| TokenizerPasses.DanglingRemovalIdempotent | src/main/java/Tokenizer.java:488-513 | A second pass changes nothing |
| TokenizerPasses.DanglingRemovalKeepsOthers | src/main/java/Tokenizer.java:488-513 | Every token that is not an operator survives, in order |
| TokenizerPasses.FirstOffence | src/main/java/Tokenizer.java:680-718 | None exactly when no pair offends; otherwise the offence of an offending pair with no offending pair before it |
| TokenizerPasses.ValidateTokenSequence | src/main/java/Tokenizer.java:680-718 | The early-return loop reports the offence of the first offending pair, or none |
| TokenizerPasses.ValidIffWellSequenced | src/main/java/Tokenizer.java:680-718 | Accepted exactly when no adjacent pair is op-op, COURSE-COURSE, LPAREN-op, op-RPAREN or op-EOF, and with two or more tokens the first is not an operator |
| TokenizerPasses.CleanListOffences | src/main/java/Tokenizer.java:686-703 | After dangling removal only COURSE-COURSE, a leading operator or LPAREN-op can remain |
| TokenizerPasses.Tokenize | src/main/java/Tokenizer.java:77-88 | The passes run in the pipeline's order |
| TokenizerPasses.TokenizeClean | src/main/java/Tokenizer.java:77-88 | The parser's input holds no COMMA, SLASH or PERIOD and no dangling operator |
| TokenizerPasses.TokenizeKeepsEof | src/main/java/Tokenizer.java:77-88 | The scanner's final EOF is still last |
| CatalogLoading.MatchingBrace | src/prereqsolver/CatalogLoader.java:92-125 | -1 or a position at or after the opening brace |
| CatalogLoading.MatchingBraceFirst | src/prereqsolver/CatalogLoader.java:92-125 | The first `}` outside strings that brings the depth to zero; -1 exactly when there is none |
| CatalogLoading.FindMatchingBrace | src/prereqsolver/CatalogLoader.java:92-125 | The loop over depth, string and escape flags computes it |
| CatalogLoading.EscapedCharInert | src/prereqsolver/CatalogLoader.java:100-108 | Inside a string a backslash makes the next char inert: `\"` does not end it, an escaped brace does not count |
| CatalogLoading.ObjectBraceMatches | src/prereqsolver/CatalogLoader.java:92-125 | The brace closing a written object of string fields is its last char, whatever the values hold and whatever follows |
| CatalogLoading.ExtractField | src/prereqsolver/CatalogLoader.java:130-182 | A value only where the quoted key occurs |
| CatalogLoading.ExtractStringField | src/prereqsolver/CatalogLoader.java:130-182 | The method computes it: no value without the key, a colon, a string value, or a closing quote; `null` is no value |
| CatalogLoading.ReadStringValue | src/prereqsolver/CatalogLoader.java:158-181 | Characters up to the first unescaped quote, escaping backslashes removed, or no value |
| CatalogLoading.UnescapeEscape | src/prereqsolver/CatalogLoader.java:158-181 | Reading back an escaped value gives the value |
| CatalogLoading.LeadingValueRead | src/prereqsolver/CatalogLoader.java:130-181 | A string value just after its key is read back |
| CatalogLoading.FirstFieldRead | src/prereqsolver/CatalogLoader.java:130-181 | The value of an object's first field is read back as written |
| CatalogLoading.NullFieldAbsent | src/prereqsolver/CatalogLoader.java:148-150 | A `null` value reads as no value |
| CatalogLoading.CourseOf | src/prereqsolver/CatalogLoader.java:75-81 | A course exactly when both subject and catalog number are read |
| CatalogLoading.ReadCourse | src/prereqsolver/CatalogLoader.java:75-81 | The three field reads of one object |
| CatalogLoading.ScanObject | src/prereqsolver/CatalogLoader.java:65-83 | One round of the object loop: with no further `{` or no matching `}` nothing more is read; otherwise the next object's course, when complete, is the next item read, and the scan resumes strictly further on |
| CatalogLoading.ParseCoursesFromJson | src/prereqsolver/CatalogLoader.java:58-87 | The object loop returns the courses of the objects in order, skipping incomplete ones and stopping at an unbalanced one |
| CatalogLoading.ObjectsBalanced | src/prereqsolver/CatalogLoader.java:62-84 | Every object found starts with `{` and ends at its matching brace |
| CatalogLoading.ObjectThenRest | src/prereqsolver/CatalogLoader.java:62-84 | A written object at the front is found whole and the search resumes right after it |
| CatalogLoading.ReadObjectsFound | src/prereqsolver/CatalogLoader.java:62-84 | A course is returned exactly when some object found reads as it |
| CatalogLoading.CourseFromBalancedObject | src/prereqsolver/CatalogLoader.java:62-84 | Every course returned comes from a balanced object of the text |
| CatalogLoading.Load | src/prereqsolver/CatalogLoader.java:30-47 | The map built from the parsed courses |
| CatalogLoading.PrereqMapKeys | src/prereqsolver/CatalogLoader.java:39-44 | A code `subject + " " + catalogNbr` is mapped exactly when some such course has a non-null, non-blank prerequisite |
| CatalogLoading.PrereqMapLast | src/prereqsolver/CatalogLoader.java:39-44 | The mapped text is non-blank and is that of the last such course |

## Left out

- The character scanner of src/main/java/Tokenizer.java is not part of this model: `scanAllTokens`, `scanNextToken`, `scanVagueRequirement`, the skip phrases and the regular expressions. The passes start from the scanned list. Concrete end-to-end examples from sentence to tokens are therefore stated per pass, with course tokens left symbolic.
- File and console I/O is not modelled:
  - `Files.readString` and the `BufferedReader` of `loadTSV`; the model takes the file as a string or as its sequence of lines;
  - the `jsonFilePath` field and constructor of `CatalogLoader`;
  - console output;
  - every `main` method;
  - src/main/java/Server.java;
  - the output side of src/prereqsolver/PrereqProcessor.java. Only its token-string loop is modelled.
- Order of maps and sets: `LinkedHashMap` and `LinkedHashSet` insertion order is not kept; the store and the prerequisite map are Dafny `map`s and sets.
- `HashSet` iteration order is not fixed by the Java:
  - `HashSet<Plan>` is modelled as a list in insertion order in which no two plans have equal course sets. This is one admissible iteration order.
  - The topological walk visits a course's prerequisites in any order (`:|`).
- Aliasing is not modelled. Collections are values; the `visited`/`sorted` pair of the walk is passed and returned.
- `String.toUpperCase`, `toLowerCase` and `equalsIgnoreCase` are modelled for ASCII letters only. The regular expression `\d+` is modelled as ASCII digits.
- RuntimeFinder.ExtractCourseNumber: the `NumberFormatException` that `Integer.parseInt` throws on a digit run whose value exceeds 2^31-1 is not modelled; the number is unbounded.
- RuntimeFinder.GetPlans: assumes that no cycle is reachable from the requirement through regular leaves, given as a rank (`RankedAcyclic` and `Below`). Java also returns on some stores where such a cycle is reachable: those where every path round it is cut off first by an `alreadyPlanned` hit, a satisfied OR side, or an OR that skips a direct special. The model does not cover those, because its recursion needs a measure. Where Java does go round a cycle, it recurses until `StackOverflowError`, which is not modelled. Every enumeration lemma of `RuntimeFinder` carries the same hypothesis. The taken-set expansion needs no such assumption.
- RuntimeFinder.TargetPlans: the same hypothesis as `RuntimeFinder.GetPlans`, from the target (`AcyclicFrom`).
- RuntimeFinder.PlanFinder.FindPlans: the same hypothesis as `RuntimeFinder.GetPlans`, from the target, and only when the target is neither taken nor free of prerequisites.
- RuntimeFinder.PlanFinder.GetPlansFor: the same hypothesis as `RuntimeFinder.GetPlans`.
- RuntimeFinder.PlanFinder.GetPlansForUnit: the same hypothesis as `RuntimeFinder.GetPlans`.
- RuntimeFinder.PlanFinder.GetPlansForExpression: the same hypothesis as `RuntimeFinder.GetPlans`.
- RuntimeFinder.PlanFinder.AndLoop: the same hypothesis as `RuntimeFinder.GetPlans`, for the right side of the AND.
- RuntimeFinder.AndPlans: the same hypothesis as `RuntimeFinder.GetPlans`, for the right side of the AND.
- RuntimeFinder.CrossKeys: the same hypothesis as `RuntimeFinder.GetPlans`, for the right side of the AND.
- LegacyFinder.GetPlans: the same hypothesis as `RuntimeFinder.GetPlans`, for src/main/java/PlanFinder.java:51-63. Every enumeration lemma of `LegacyFinder` carries it too.
- LegacyFinder.AndPlans: the same hypothesis as `RuntimeFinder.GetPlans`, for the right side of the AND.
- LegacyFinder.TargetPlans: the same hypothesis as `RuntimeFinder.GetPlans`, from the target (`AcyclicFrom`).
- LegacyFinder.LegacyPlanFinder.FindPlans: the same hypothesis as `RuntimeFinder.GetPlans`, from the target, and only when the target is neither taken nor free of prerequisites.
- TokenStringParsing.TokenStringParser.ParseExpr: the cursor after a failed parse is not stated; the exception ends the parse.
- ParserAgreement.ParsersAgree: covers trees with paren-free leaf contents that are not "NONE", written with the fewest parentheses. Redundant parentheses and the token lists the tokenizer may produce beyond those are not covered.
- CatalogLoading.FirstFieldRead: the key search of `extractStringField` is not aware of JSON structure, so a key's text inside an earlier value can match first. The read-back lemma is stated for the first field with a key free of quotes and backslashes.
- Java exceptions are `Result` values: `IllegalArgumentException` from `Expression`, `ParseException`, the `StringIndexOutOfBoundsException` of `substring` in `matchKeyword`, and the null dereference of a COURSE token without a literal. The message texts are not modelled.
- The `Plan.toString` rendering with arrows is not modelled.
- Text.CompareTo: strings are sequences of Unicode scalar values, while Java strings are UTF-16 code units. For characters above U+FFFF, `String.compareTo` (and so the order used by `MergeLex` and the string fallback of `CompareByNumber`), `String.hashCode` (`Plans.StringHash`, `Plans.SetHash`) and every index (`indexOf`, parser and scanner positions) differ from Java.

## Behaviour worth noting

- The final sort is by size only, and stable. Plans of equal size are not ordered lexicographically.
- In the AND merge, `compareByNumber` returns 0 when two numbers tie, and then the left plan goes first. It falls back to string order only when a code has no number.
- With exactly one side of an OR a direct SPECIAL/PERMISSION leaf, only the other side is explored. For example, `CS 2110 OR SPECIAL(programming)` yields only plans through CS 2110.
- A SLASH flushes the buffered commas as AND and then emits OR.
- Before an OR, an AND, a PERIOD or an EOF, a single trailing COMMA is dropped from the buffer; this is an `if`, not a loop.
- A `COURSE(` that is never closed does not end the parse quietly. The cursor passes the end, and the next keyword match fails.
- The runtime `findPlans` ends every plan with the target only for a regular target. The outer loop of `sortTopologically` skips SPECIAL and PERMISSION courses, so a target named like one is dropped unless some course of the plan needs it.
