/** The registry of applications and the topological sort of their dependencies. */
module Applications {
  import opened Basics

  type ApplicationId = nat

  datatype Description = Description(id: ApplicationId, parameters: nat, required: seq<ApplicationId>)

  type Registry = map<ApplicationId, Description>

  datatype RegistryError = UnknownApplicationId(id: ApplicationId)

  /** Reachable from the roots in a number of steps along required applications. */
  ghost predicate ReachableIn(apps: Registry, roots: set<ApplicationId>, id: ApplicationId, steps: nat)
    decreases steps
  {
    if steps == 0 then id in roots
    else exists p :: p in apps && id in apps[p].required && ReachableIn(apps, roots, p, steps - 1)
  }

  ghost predicate Reachable(apps: Registry, roots: set<ApplicationId>, id: ApplicationId) {
    exists steps: nat :: ReachableIn(apps, roots, id, steps)
  }

  /** A set that contains the roots and with each application all those it requires. */
  predicate Closed(apps: Registry, s: set<ApplicationId>) {
    forall id, c | id in s && id in apps && c in apps[id].required :: c in s
  }

  lemma {:induction false} ClosedContainsReachableIn(apps: Registry, roots: set<ApplicationId>, s: set<ApplicationId>,
                                                     id: ApplicationId, steps: nat)
    requires roots <= s && Closed(apps, s)
    requires ReachableIn(apps, roots, id, steps)
    ensures id in s
    decreases steps
  {
    if steps > 0 {
      var p :| p in apps && id in apps[p].required && ReachableIn(apps, roots, p, steps - 1);
      ClosedContainsReachableIn(apps, roots, s, p, steps - 1);
    }
  }

  lemma ClosedContainsReachable(apps: Registry, roots: set<ApplicationId>, s: set<ApplicationId>)
    requires roots <= s && Closed(apps, s)
    ensures forall id | Reachable(apps, roots, id) :: id in s
  {
    forall id | Reachable(apps, roots, id) ensures id in s {
      var steps: nat :| ReachableIn(apps, roots, id, steps);
      ClosedContainsReachableIn(apps, roots, s, id, steps);
    }
  }

  lemma RootsAreReachable(apps: Registry, roots: set<ApplicationId>, id: ApplicationId)
    requires id in roots
    ensures Reachable(apps, roots, id)
  {
    assert ReachableIn(apps, roots, id, 0);
  }

  lemma RequiredAreReachable(apps: Registry, roots: set<ApplicationId>, p: ApplicationId, id: ApplicationId)
    requires Reachable(apps, roots, p) && p in apps && id in apps[p].required
    ensures Reachable(apps, roots, id)
  {
    var steps: nat :| ReachableIn(apps, roots, p, steps);
    assert ReachableIn(apps, roots, id, steps + 1);
  }

  /** A numbering under which required applications come first. */
  ghost predicate Ranks(apps: Registry, roots: set<ApplicationId>, rank: map<ApplicationId, nat>) {
    forall id, c | Reachable(apps, roots, id) && Requires(apps, id, c) :: Precedes(rank, c, id)
  }

  predicate Precedes(rank: map<ApplicationId, nat>, c: ApplicationId, id: ApplicationId) {
    c in rank && id in rank && rank[c] < rank[id]
  }

  predicate Requires(apps: Registry, id: ApplicationId, c: ApplicationId) {
    id in apps && c in apps[id].required
  }

  /** No application reachable from the roots depends on itself. */
  ghost predicate Acyclic(apps: Registry, roots: set<ApplicationId>) {
    exists rank :: Ranks(apps, roots, rank)
  }

  predicate NoDuplicates(xs: seq<ApplicationId>) {
    forall i, j | 0 <= i < j < |xs| :: xs[i] != xs[j]
  }

  function Elements(xs: seq<ApplicationId>): set<ApplicationId> {
    set x | x in xs
  }

  /** Every application comes after all those it requires. */
  predicate Topological(apps: Registry, xs: seq<ApplicationId>) {
    forall i, c | 0 <= i < |xs| && xs[i] in apps && c in apps[xs[i]].required :: c in xs[..i]
  }

  // ----- The search -----

  /**
   * The state of the search. A stack entry is marked if it was pushed for its second visit, just
   * before the applications it requires.
   */
  datatype Search = Search(
    stack: seq<ApplicationId>,
    marks: seq<bool>,
    seen: set<ApplicationId>,
    result: seq<ApplicationId>)

  predicate IsMark(d: Search, i: int) {
    0 <= i < |d.stack| && |d.marks| == |d.stack| && d.marks[i]
  }

  /** Who is on the stack for a second visit: exactly the seen applications not yet in the result. */
  ghost predicate MarksInvariant(d: Search) {
    && |d.marks| == |d.stack|
    && (forall i | IsMark(d, i) :: d.stack[i] in d.seen && d.stack[i] !in d.result)
    && (forall id | id in d.seen && id !in d.result :: exists i :: IsMark(d, i) && d.stack[i] == id)
    && (forall i, j | IsMark(d, i) && 0 <= j < |d.stack| && d.stack[j] == d.stack[i] :: j <= i)
  }

  /** Everything found is reachable, and everything required is found or on the stack. */
  ghost predicate ReachInvariant(apps: Registry, roots: set<ApplicationId>, d: Search) {
    && d.seen <= apps.Keys
    && NoDuplicates(d.result) && Elements(d.result) <= d.seen
    && (forall id | id in d.seen || id in d.stack :: Reachable(apps, roots, id))
    && (forall id | id in roots :: id in d.seen || id in d.stack)
    && (forall id, c | id in d.seen && c in apps[id].required :: c in d.seen || c in d.stack)
  }

  /** Without cycles, what an application requires is in the result or above it on the stack. */
  ghost predicate OrderInvariant(apps: Registry, rank: map<ApplicationId, nat>, d: Search) {
    Topological(apps, d.result) && ChildrenPlaced(apps, d) && Descending(rank, d)
  }

  ghost predicate ChildrenPlaced(apps: Registry, d: Search) {
    forall i, c | IsMark(d, i) && d.stack[i] in apps && c in apps[d.stack[i]].required ::
      c in d.result || c in d.stack[i + 1..]
  }

  ghost predicate Descending(rank: map<ApplicationId, nat>, d: Search) {
    forall i, j | IsMark(d, i) && i < j < |d.stack| ::
      d.stack[i] in rank && d.stack[j] in rank && rank[d.stack[j]] < rank[d.stack[i]]
  }

  function Top(d: Search): ApplicationId
    requires d.stack != []
  {
    d.stack[|d.stack| - 1]
  }

  function Pop(d: Search): Search
    requires d.stack != [] && |d.marks| == |d.stack|
  {
    d.(stack := d.stack[..|d.stack| - 1], marks := d.marks[..|d.stack| - 1])
  }

  /** The entry is emitted on its second visit. */
  function Emit(d: Search): Search
    requires d.stack != [] && |d.marks| == |d.stack|
  {
    Pop(d).(result := d.result + [Top(d)])
  }

  /** On the first visit the entry is pushed again, followed by `children`. */
  function Expand(d: Search, children: seq<ApplicationId>): Search
    requires d.stack != [] && |d.marks| == |d.stack|
  {
    Search(d.stack + children, Pop(d).marks + [true] + seq(|children|, _ => false), d.seen + {Top(d)}, d.result)
  }

  /** The unseen applications of a list, last one first. */
  function UnseenReversed(ids: seq<ApplicationId>, seen: set<ApplicationId>): seq<ApplicationId> {
    if ids == [] then [] else UnseenReversed(ids[1..], seen) + if ids[0] in seen then [] else [ids[0]]
  }

  lemma {:induction false} UnseenMembers(ids: seq<ApplicationId>, seen: set<ApplicationId>)
    ensures forall id :: id in UnseenReversed(ids, seen) <==> id in ids && id !in seen
  {
    if ids != [] {
      UnseenMembers(ids[1..], seen);
      assert forall id :: id in ids <==> id == ids[0] || id in ids[1..];
    }
  }

  lemma MarkOf(d: Search, id: ApplicationId) returns (i: nat)
    requires MarksInvariant(d) && id in d.seen && id !in d.result
    ensures IsMark(d, i) && d.stack[i] == id
    ensures forall j | 0 <= j < |d.stack| && d.stack[j] == id :: j <= i
  {
    i :| IsMark(d, i) && d.stack[i] == id;
  }

  lemma PopKeepsMarks(d: Search)
    requires MarksInvariant(d) && d.stack != [] && Top(d) in d.result
    ensures MarksInvariant(Pop(d))
  {
    var d', n := Pop(d), |d.stack| - 1;
    assert forall i :: IsMark(d', i) <==> IsMark(d, i) && i < n;
    assert forall i | 0 <= i < n :: d'.stack[i] == d.stack[i];
    forall i | IsMark(d', i) ensures d'.stack[i] in d'.seen && d'.stack[i] !in d'.result {
      assert IsMark(d, i);
    }
    forall id | id in d'.seen && id !in d'.result ensures exists i :: IsMark(d', i) && d'.stack[i] == id {
      var i := MarkOf(d, id);
      assert i != n;
      assert IsMark(d', i) && d'.stack[i] == id;
    }
  }

  lemma EmitKeepsMarks(d: Search)
    requires MarksInvariant(d) && d.stack != [] && Top(d) in d.seen && Top(d) !in d.result
    ensures IsMark(d, |d.stack| - 1)
    ensures MarksInvariant(Emit(d))
  {
    var d', n := Emit(d), |d.stack| - 1;
    var m := MarkOf(d, Top(d));
    assert m == n;
    assert forall i :: IsMark(d', i) <==> IsMark(d, i) && i < n;
    assert forall i | IsMark(d', i) :: d.stack[i] != Top(d);
    forall id | id in d'.seen && id !in d'.result ensures exists i :: IsMark(d', i) && d'.stack[i] == id {
      assert id !in d.result && id != Top(d);
      var i := MarkOf(d, id);
      assert IsMark(d', i) && d'.stack[i] == id;
    }
  }

  lemma ExpandKeepsMarks(d: Search, children: seq<ApplicationId>)
    requires MarksInvariant(d) && d.stack != [] && Top(d) !in d.seen && Elements(d.result) <= d.seen
    requires forall c | c in children :: c !in d.seen + {Top(d)}
    ensures MarksInvariant(Expand(d, children))
  {
    var d', n := Expand(d, children), |d.stack| - 1;
    assert !IsMark(d, n);
    assert forall i :: IsMark(d', i) <==> IsMark(d, i) || i == n;
    assert forall i | 0 <= i <= n :: d'.stack[i] == d.stack[i];
    assert forall j | n < j < |d'.stack| :: d'.stack[j] in children;
    forall id | id in d'.seen && id !in d'.result ensures exists i :: IsMark(d', i) && d'.stack[i] == id {
      if id == Top(d) {
        assert IsMark(d', n) && d'.stack[n] == id;
      } else {
        var i :| IsMark(d, i) && d.stack[i] == id;
        assert IsMark(d', i) && d'.stack[i] == id;
      }
    }
  }

  lemma PopKeepsReach(apps: Registry, roots: set<ApplicationId>, d: Search)
    requires ReachInvariant(apps, roots, d) && d.stack != [] && |d.marks| == |d.stack| && Top(d) in d.seen
    ensures ReachInvariant(apps, roots, Pop(d))
  {
    assert d.stack == Pop(d).stack + [Top(d)];
  }

  lemma EmitKeepsReach(apps: Registry, roots: set<ApplicationId>, d: Search)
    requires ReachInvariant(apps, roots, d) && d.stack != [] && |d.marks| == |d.stack|
    requires Top(d) in d.seen && Top(d) !in d.result
    ensures ReachInvariant(apps, roots, Emit(d))
  {
    PopKeepsReach(apps, roots, d);
    assert Elements(d.result + [Top(d)]) == Elements(d.result) + {Top(d)};
  }

  lemma ExpandKeepsReach(apps: Registry, roots: set<ApplicationId>, d: Search, children: seq<ApplicationId>)
    requires ReachInvariant(apps, roots, d) && d.stack != [] && |d.marks| == |d.stack|
    requires Top(d) in apps
    requires forall c :: c in children <==> c in apps[Top(d)].required && c !in d.seen + {Top(d)}
    ensures ReachInvariant(apps, roots, Expand(d, children))
  {
    var d' := Expand(d, children);
    assert Top(d) in d.stack && Reachable(apps, roots, Top(d));
    forall c | c in children ensures Reachable(apps, roots, c) {
      RequiredAreReachable(apps, roots, Top(d), c);
    }
    assert forall id :: id in d'.stack <==> id in d.stack || id in children;
  }

  lemma PopKeepsOrder(apps: Registry, rank: map<ApplicationId, nat>, d: Search)
    requires MarksInvariant(d) && OrderInvariant(apps, rank, d) && d.stack != [] && Top(d) in d.result
    ensures OrderInvariant(apps, rank, Pop(d))
  {
    var d' := Pop(d);
    assert forall i | IsMark(d', i) :: IsMark(d, i);
    PopKeepsChildrenPlaced(apps, d);
  }

  lemma PopKeepsChildrenPlaced(apps: Registry, d: Search)
    requires ChildrenPlaced(apps, d) && d.stack != [] && |d.marks| == |d.stack| && Top(d) in d.result
    ensures ChildrenPlaced(apps, Pop(d))
  {
    var d' := Pop(d);
    forall i, c | IsMark(d', i) && d'.stack[i] in apps && c in apps[d'.stack[i]].required
      ensures c in d'.result || c in d'.stack[i + 1..]
    {
      assert IsMark(d, i);
      assert d.stack[i + 1..] == d'.stack[i + 1..] + [Top(d)];
    }
  }

  lemma EmitKeepsOrder(apps: Registry, rank: map<ApplicationId, nat>, d: Search)
    requires MarksInvariant(d) && OrderInvariant(apps, rank, d) && d.stack != [] && IsMark(d, |d.stack| - 1)
    ensures OrderInvariant(apps, rank, Emit(d))
  {
    var d', n := Emit(d), |d.stack| - 1;
    assert d.stack[n + 1..] == [];
    EmittingKeepsTopological(apps, d.result, Top(d));
    assert forall i | IsMark(d', i) :: IsMark(d, i);
    assert Descending(rank, d');
    EmitKeepsChildrenPlaced(apps, d);
  }

  lemma EmitKeepsChildrenPlaced(apps: Registry, d: Search)
    requires ChildrenPlaced(apps, d) && d.stack != [] && |d.marks| == |d.stack|
    ensures ChildrenPlaced(apps, Emit(d))
  {
    var d' := Emit(d);
    forall i, c | IsMark(d', i) && d'.stack[i] in apps && c in apps[d'.stack[i]].required
      ensures c in d'.result || c in d'.stack[i + 1..]
    {
      assert IsMark(d, i);
      assert d.stack[i + 1..] == d'.stack[i + 1..] + [Top(d)];
    }
  }

  lemma EmittingKeepsTopological(apps: Registry, xs: seq<ApplicationId>, x: ApplicationId)
    requires Topological(apps, xs)
    requires x in apps ==> forall c | c in apps[x].required :: c in xs
    ensures Topological(apps, xs + [x])
  {
    var ys := xs + [x];
    forall i, c | 0 <= i < |ys| && ys[i] in apps && c in apps[ys[i]].required ensures c in ys[..i] {
      assert ys[..i] == xs[..i];
      if i == |xs| {
        assert xs[..i] == xs;
      }
    }
  }

  lemma ExpandKeepsOrder(apps: Registry, roots: set<ApplicationId>, rank: map<ApplicationId, nat>, d: Search,
                         children: seq<ApplicationId>)
    requires MarksInvariant(d) && ReachInvariant(apps, roots, d) && Ranks(apps, roots, rank)
             && OrderInvariant(apps, rank, d)
    requires d.stack != [] && Top(d) in apps && Top(d) !in d.seen
    requires forall c :: c in children <==> c in apps[Top(d)].required && c !in d.seen + {Top(d)}
    ensures OrderInvariant(apps, rank, Expand(d, children))
  {
    forall c | c in apps[Top(d)].required ensures c in d.result || c in children {
      NothingRequiredIsInProgress(apps, roots, rank, d, c);
    }
    ExpandKeepsChildrenPlaced(apps, d, children);
    assert Top(d) in d.stack && Reachable(apps, roots, Top(d));
    forall c | c in children ensures Precedes(rank, c, Top(d)) {
      assert Requires(apps, Top(d), c);
    }
    ExpandKeepsDescending(rank, d, children);
  }

  lemma ExpandKeepsChildrenPlaced(apps: Registry, d: Search, children: seq<ApplicationId>)
    requires MarksInvariant(d) && ChildrenPlaced(apps, d)
    requires d.stack != [] && Top(d) in apps && Top(d) !in d.seen
    requires forall c | c in apps[Top(d)].required :: c in d.result || c in children
    ensures ChildrenPlaced(apps, Expand(d, children))
  {
    var d', n := Expand(d, children), |d.stack| - 1;
    forall i, c | IsMark(d', i) && d'.stack[i] in apps && c in apps[d'.stack[i]].required
      ensures c in d'.result || c in d'.stack[i + 1..]
    {
      if i == n {
        assert d'.stack[i + 1..] == children;
      } else {
        assert IsMark(d, i) && d'.stack[i + 1..] == d.stack[i + 1..] + children;
      }
    }
  }

  lemma ExpandKeepsDescending(rank: map<ApplicationId, nat>, d: Search, children: seq<ApplicationId>)
    requires MarksInvariant(d) && Descending(rank, d) && d.stack != [] && Top(d) !in d.seen
    requires forall c | c in children :: Precedes(rank, c, Top(d))
    ensures Descending(rank, Expand(d, children))
  {
    var d', n := Expand(d, children), |d.stack| - 1;
    forall i, j | IsMark(d', i) && i < j < |d'.stack|
      ensures d'.stack[i] in rank && d'.stack[j] in rank && rank[d'.stack[j]] < rank[d'.stack[i]]
    {
      assert d'.stack[i] == d.stack[i];
      if i < n {
        assert IsMark(d, i) && d.stack[n] in rank && rank[d.stack[n]] < rank[d.stack[i]];
      }
      if j <= n {
        assert d'.stack[j] == d.stack[j];
      } else {
        assert d'.stack[j] == children[j - n - 1] && children[j - n - 1] in children;
      }
    }
    assert Descending(rank, d');
  }

  lemma InProgressIsBelow(rank: map<ApplicationId, nat>, d: Search, id: ApplicationId)
    requires MarksInvariant(d) && Descending(rank, d) && d.stack != [] && Top(d) !in d.seen
    requires id in d.seen && id !in d.result
    ensures id in rank && Top(d) in rank && rank[Top(d)] < rank[id]
  {
    var i :| IsMark(d, i) && d.stack[i] == id;
    assert i < |d.stack| - 1;
  }

  /** Without cycles, an application on its first visit requires none that is on the stack for its second. */
  lemma NothingRequiredIsInProgress(apps: Registry, roots: set<ApplicationId>, rank: map<ApplicationId, nat>,
                                    d: Search, c: ApplicationId)
    requires MarksInvariant(d) && ReachInvariant(apps, roots, d) && Ranks(apps, roots, rank) && Descending(rank, d)
    requires d.stack != [] && Top(d) in apps && Top(d) !in d.seen && c in apps[Top(d)].required
    ensures c != Top(d) && (c in d.seen ==> c in d.result)
  {
    assert Top(d) in d.stack && Reachable(apps, roots, Top(d)) && Requires(apps, Top(d), c);
    if c in d.seen && c !in d.result {
      InProgressIsBelow(rank, d, c);
    }
  }

  // ----- The registry -----

  /** An application is added, or replaced, once all those it requires are known. */
  function Register(known: Registry, application: Description): Option<Registry> {
    if forall c | c in application.required :: c in known then Some(known[application.id := application]) else None
  }

  /** The registry after a sequence of registrations, each of an application that is new. */
  function FirstTimeRegistrations(applications: seq<Description>): Option<Registry> {
    if applications == [] then Some(map[])
    else
      var before := FirstTimeRegistrations(applications[..|applications| - 1]);
      var last := applications[|applications| - 1];
      if before.None? || last.id in before.value then None else Register(before.value, last)
  }

  /** The order of registration is a numbering without cycles, and nothing required is missing. */
  lemma {:induction false} RegistrationOrder(applications: seq<Description>) returns (rank: map<ApplicationId, nat>)
    requires FirstTimeRegistrations(applications).Some?
    ensures var apps := FirstTimeRegistrations(applications).value;
            && rank.Keys == apps.Keys
            && (forall id | id in apps :: rank[id] < |applications|)
            && (forall id, c | id in apps && c in apps[id].required :: c in apps && rank[c] < rank[id])
  {
    if applications == [] {
      rank := map[];
    } else {
      var n := |applications| - 1;
      var before := RegistrationOrder(applications[..n]);
      rank := before[applications[n].id := n];
    }
  }

  /**
   * In a registry built by first-time registrations, whatever known applications one starts from,
   * nothing is missing and there is no cycle, so their dependencies can be put in order.
   */
  lemma FirstTimeRegistrationsAreAcyclic(applications: seq<Description>, roots: set<ApplicationId>)
    requires FirstTimeRegistrations(applications).Some?
    requires roots <= FirstTimeRegistrations(applications).value.Keys
    ensures var apps := FirstTimeRegistrations(applications).value;
            Acyclic(apps, roots) && forall id | Reachable(apps, roots, id) :: id in apps
  {
    var apps := FirstTimeRegistrations(applications).value;
    var rank := RegistrationOrder(applications);
    ClosedContainsReachable(apps, roots, apps.Keys);
    assert Ranks(apps, roots, rank);
  }

  const ALONE := Description(0, 0, [])
  const DEPENDENT := Description(1, 0, [0])
  const REPLACED := Description(0, 0, [1])

  lemma CycleHasNoRanks(apps: Registry, roots: set<ApplicationId>, rank: map<ApplicationId, nat>, a: ApplicationId,
                        b: ApplicationId)
    requires a in apps && b in apps && Reachable(apps, roots, a) && Reachable(apps, roots, b)
    requires b in apps[a].required && a in apps[b].required
    ensures !Ranks(apps, roots, rank)
  {
    assert Requires(apps, a, b) && Requires(apps, b, a);
    assert !Precedes(rank, a, b) || !Precedes(rank, b, a);
  }

  // ----- When a registration closes a cycle -----

  /** No known application depends on itself. */
  ghost predicate IsAcyclic(apps: Registry) {
    Acyclic(apps, apps.Keys)
  }

  lemma {:induction false} MoreRoots(apps: Registry, roots: set<ApplicationId>, more: set<ApplicationId>,
                                     id: ApplicationId, steps: nat)
    requires roots <= more && ReachableIn(apps, roots, id, steps)
    ensures ReachableIn(apps, more, id, steps)
    decreases steps
  {
    if steps > 0 {
      var p :| p in apps && id in apps[p].required && ReachableIn(apps, roots, p, steps - 1);
      MoreRoots(apps, roots, more, p, steps - 1);
    }
  }

  /** What is reachable from a required application is reachable from the one that requires it. */
  lemma {:induction false} LongerPath(apps: Registry, x: ApplicationId, c: ApplicationId, id: ApplicationId, steps: nat)
    requires x in apps && c in apps[x].required && ReachableIn(apps, {c}, id, steps)
    ensures ReachableIn(apps, {x}, id, steps + 1)
    decreases steps
  {
    if steps == 0 {
      assert ReachableIn(apps, {x}, x, 0);
    } else {
      var p :| p in apps && id in apps[p].required && ReachableIn(apps, {c}, p, steps - 1);
      LongerPath(apps, x, c, p, steps - 1);
    }
  }

  /** The numbering descends from every known application to those it requires. */
  ghost predicate RanksAll(apps: Registry, rank: map<ApplicationId, nat>) {
    forall id, c | Requires(apps, id, c) :: Precedes(rank, c, id)
  }

  lemma RanksOfAll(apps: Registry, rank: map<ApplicationId, nat>)
    ensures Ranks(apps, apps.Keys, rank) <==> RanksAll(apps, rank)
  {
    forall id | id in apps ensures Reachable(apps, apps.Keys, id) {
      RootsAreReachable(apps, apps.Keys, id);
    }
  }

  /** With a numbering of the new registry, whatever the new application requires comes before it. */
  lemma {:induction false} RequiredRankBelow(known: Registry, application: Description, rank: map<ApplicationId, nat>,
                                             x: ApplicationId, steps: nat)
    requires RanksAll(known[application.id := application], rank)
    requires ReachableIn(known, Elements(application.required), x, steps)
    ensures Precedes(rank, x, application.id)
    decreases steps
  {
    var apps := known[application.id := application];
    if steps == 0 {
      assert Requires(apps, application.id, x);
    } else {
      var p :| && p in known && x in known[p].required
               && ReachableIn(known, Elements(application.required), p, steps - 1);
      RequiredRankBelow(known, application, rank, p, steps - 1);
      assert Requires(apps, p, x);
    }
  }

  lemma {:induction false} RankBound(rank: map<ApplicationId, nat>, ids: set<ApplicationId>) returns (bound: nat)
    requires ids <= rank.Keys
    ensures forall x | x in ids :: rank[x] < bound
    decreases ids
  {
    bound := 0;
    if ids != {} {
      var x :| x in ids;
      var others := RankBound(rank, ids - {x});
      bound := Max(others, rank[x] + 1);
    }
  }

  /**
   * The new application moves above everything it may require, and everything that depends on it
   * above the new application.
   */
  function Lifted(rank: map<ApplicationId, nat>, bound: nat, dependents: set<ApplicationId>, id: ApplicationId,
                  x: ApplicationId): nat
  {
    var before := if x in rank then rank[x] else 0;
    if x == id then bound else if x in dependents then before + bound + 1 else before
  }

  /** The known applications that depend on `id`, or are `id`. */
  ghost function Dependents(known: Registry, id: ApplicationId): set<ApplicationId> {
    set x | x in known && Reachable(known, {x}, id)
  }

  lemma DependentsAreClosed(known: Registry, id: ApplicationId, x: ApplicationId, c: ApplicationId)
    requires x in known && c in known[x].required && (c == id || c in Dependents(known, id))
    ensures x in Dependents(known, id)
  {
    if c == id {
      assert ReachableIn(known, {c}, id, 0);
    }
    assert Reachable(known, {c}, id);
    var steps: nat :| ReachableIn(known, {c}, id, steps);
    LongerPath(known, x, c, id, steps);
  }

  lemma RequiresNoDependent(known: Registry, application: Description, c: ApplicationId)
    requires !Reachable(known, Elements(application.required), application.id) && c in application.required
    ensures c != application.id && c !in Dependents(known, application.id)
  {
    var roots := Elements(application.required);
    if c == application.id {
      RootsAreReachable(known, roots, c);
    } else if Reachable(known, {c}, application.id) {
      var steps: nat :| ReachableIn(known, {c}, application.id, steps);
      MoreRoots(known, {c}, roots, application.id, steps);
    }
  }

  lemma LiftedDescends(known: Registry, application: Description, rank: map<ApplicationId, nat>, bound: nat,
                       x: ApplicationId, c: ApplicationId)
    requires RanksAll(known - {application.id}, rank) && forall y | y in rank :: rank[y] < bound
    requires !Reachable(known, Elements(application.required), application.id)
    requires bound > 0 && Requires(known[application.id := application], x, c)
    ensures var dependents := Dependents(known, application.id);
            Lifted(rank, bound, dependents, application.id, c) < Lifted(rank, bound, dependents, application.id, x)
  {
    var id := application.id;
    if x == id {
      RequiresNoDependent(known, application, c);
    } else {
      assert Requires(known - {id}, x, c);
      if c == id || c in Dependents(known, id) {
        DependentsAreClosed(known, id, x, c);
      }
    }
  }

  lemma NumberWithout(known: Registry, application: Description, rank: map<ApplicationId, nat>)
    requires RanksAll(known - {application.id}, rank)
    requires !Reachable(known, Elements(application.required), application.id)
    ensures IsAcyclic(known[application.id := application])
  {
    var id := application.id;
    var apps := known[id := application];
    var largest := RankBound(rank, rank.Keys);
    var bound := largest + 1;
    var dependents := Dependents(known, id);
    var ids := apps.Keys + rank.Keys + Elements(application.required);
    var lifted := map x | x in ids :: Lifted(rank, bound, dependents, id, x);
    forall x, c | Requires(apps, x, c) ensures Precedes(lifted, c, x) {
      LiftedDescends(known, application, rank, bound, x, c);
      assert x != id ==> Requires(known - {id}, x, c);
    }
    RanksOfAll(apps, lifted);
  }

  lemma FewerEdges(apps: Registry, fewer: Registry, rank: map<ApplicationId, nat>)
    requires RanksAll(apps, rank) && forall id | id in fewer :: id in apps && fewer[id] == apps[id]
    ensures IsAcyclic(fewer)
  {
    forall id, c | Requires(fewer, id, c) ensures Precedes(rank, c, id) {
      assert Requires(apps, id, c);
    }
    RanksOfAll(fewer, rank);
  }

  /**
   * Exactly when the registry has no cycle after a registration: if it has none without the
   * registered application, and that one is not reachable from the applications it requires.
   */
  lemma RegistrationIsAcyclicExactly(known: Registry, application: Description)
    requires Register(known, application).Some?
    ensures IsAcyclic(Register(known, application).value) <==>
              && IsAcyclic(known - {application.id})
              && !Reachable(known, Elements(application.required), application.id)
  {
    var apps, rest := Register(known, application).value, known - {application.id};
    if IsAcyclic(apps) {
      var rank :| Ranks(apps, apps.Keys, rank);
      RanksOfAll(apps, rank);
      FewerEdges(apps, rest, rank);
      if Reachable(known, Elements(application.required), application.id) {
        var steps: nat :| ReachableIn(known, Elements(application.required), application.id, steps);
        RequiredRankBelow(known, application, rank, application.id, steps);
      }
    }
    if IsAcyclic(rest) && !Reachable(known, Elements(application.required), application.id) {
      var rank :| Ranks(rest, rest.Keys, rank);
      RanksOfAll(rest, rank);
      NumberWithout(known, application, rank);
    }
  }

  /** A registration keeps a registry without cycles so if and only if it does not require itself. */
  lemma RegistrationKeepsAcyclicExactly(known: Registry, application: Description)
    requires IsAcyclic(known) && Register(known, application).Some?
    ensures IsAcyclic(Register(known, application).value) <==>
            !Reachable(known, Elements(application.required), application.id)
  {
    var rest := known - {application.id};
    var rank :| Ranks(known, known.Keys, rank);
    RanksOfAll(known, rank);
    FewerEdges(known, rest, rank);
    RegistrationIsAcyclicExactly(known, application);
  }

  /** Registering an application again, with other requirements, can close a cycle. */
  lemma RegisteringAgainCanCloseACycle()
    ensures Register(map[], ALONE) == Some(map[0 := ALONE])
    ensures Register(map[0 := ALONE], DEPENDENT) == Some(map[0 := ALONE, 1 := DEPENDENT])
    ensures Register(map[0 := ALONE, 1 := DEPENDENT], REPLACED) == Some(map[0 := REPLACED, 1 := DEPENDENT])
    ensures !Acyclic(map[0 := REPLACED, 1 := DEPENDENT], {0})
  {
    var apps: Registry := map[0 := REPLACED, 1 := DEPENDENT];
    assert map[0 := ALONE, 1 := DEPENDENT][0 := REPLACED] == apps;
    assert 1 in apps[0].required && 0 in apps[1].required;
    RootsAreReachable(apps, {0}, 0);
    RequiredAreReachable(apps, {0}, 0, 1);
    forall rank ensures !Ranks(apps, {0}, rank) {
      CycleHasNoRanks(apps, {0}, rank, 0, 1);
    }
  }

  class ApplicationRegistry {
    var knownApplications: Registry

    constructor ()
      ensures knownApplications == map[]
    {
      knownApplications := map[];
    }

    /** Registers an application once all those it requires are known. */
    method RegisterApplication(application: Description) returns (r: Result<ApplicationId, RegistryError>)
      modifies this
      ensures r.Ok? <==> Register(old(knownApplications), application).Some?
      ensures r.Ok? ==>
                && r.value == application.id
                && Some(knownApplications) == Register(old(knownApplications), application)
      ensures r.Err? ==> knownApplications == old(knownApplications)
                         && r.error.id in application.required && r.error.id !in knownApplications
    {
      for i := 0 to |application.required|
        invariant knownApplications == old(knownApplications)
        invariant forall j | 0 <= j < i :: application.required[j] in knownApplications
      {
        if application.required[i] !in knownApplications {
          return Err(UnknownApplicationId(application.required[i]));
        }
      }
      knownApplications := knownApplications[application.id := application];
      return Ok(application.id);
    }

    /** The same for an application that this chain creates. */
    method RegisterNewApplication(id: ApplicationId, parameters: nat, required: seq<ApplicationId>)
      returns (r: Result<(), RegistryError>)
      modifies this
      ensures r.Ok? <==> Register(old(knownApplications), Description(id, parameters, required)).Some?
      ensures knownApplications ==
              if r.Ok? then Register(old(knownApplications), Description(id, parameters, required)).value
              else old(knownApplications)
    {
      var result := RegisterApplication(Description(id, parameters, required));
      return if result.Ok? then Ok(()) else Err(result.error);
    }

    /**
     * The applications reachable from the given ones, each exactly once. They are in topological
     * order if and only if none of them depends on itself. An error means that one is unknown.
     */
    method FindDependencies(ids: seq<ApplicationId>, registeredApps: Registry)
      returns (r: Result<seq<ApplicationId>, RegistryError>)
      ensures var apps := knownApplications + registeredApps;
              var roots := Elements(ids);
              && (r.Ok? <==> forall id | Reachable(apps, roots, id) :: id in apps)
              && (r.Ok? ==>
                    && NoDuplicates(r.value)
                    && (forall id :: id in r.value <==> Reachable(apps, roots, id))
                    && (Topological(apps, r.value) <==> Acyclic(apps, roots)))
              && (r.Err? ==> Reachable(apps, roots, r.error.id) && r.error.id !in apps)
    {
      ghost var apps, roots := knownApplications + registeredApps, Elements(ids);
      ghost var rank: map<ApplicationId, nat> := map[];
      if Acyclic(apps, roots) {
        rank :| Ranks(apps, roots, rank);
      }
      var stack, seen, result := ids, {}, [];
      ghost var d := Search(ids, seq(|ids|, _ => false), {}, []);
      StartInvariants(apps, roots, rank, ids);
      while stack != []
        invariant d.stack == stack && d.seen == seen && d.result == result
        invariant SearchInvariant(apps, roots, rank, d)
        decreases |apps.Keys - seen|, |stack|
      {
        var id := stack[|stack| - 1];
        TopOfStack(d);
        if id in result {
          SkipStep(apps, roots, rank, d);
          d := Pop(d);
          stack := stack[..|stack| - 1];
        } else if id in seen {
          // Everything it requires is done.
          EmitStep(apps, roots, rank, d);
          d := Emit(d);
          stack, result := stack[..|stack| - 1], result + [id];
        } else {
          // Visit what it requires, then come back to it.
          if id !in registeredApps && id !in knownApplications {
            assert Reachable(apps, roots, id);
            return Err(UnknownApplicationId(id));
          }
          var app := if id in registeredApps then registeredApps[id] else knownApplications[id];
          assert app == apps[id];
          UnseenShrinks(apps, seen, id);
          seen := seen + {id};
          var children := PushUnseen(app.required, seen);
          ExpandStep(apps, roots, rank, d, children);
          d := Expand(d, children);
          stack := stack + children;
        }
      }
      FinalStep(apps, roots, rank, d);
      return Ok(result);
    }
  }

  method PushUnseen(required: seq<ApplicationId>, seen: set<ApplicationId>) returns (children: seq<ApplicationId>)
    ensures children == UnseenReversed(required, seen)
    ensures forall c :: c in children <==> c in required && c !in seen
  {
    children := [];
    for i := |required| downto 0
      invariant children == UnseenReversed(required[i..], seen)
    {
      assert required[i..][1..] == required[i + 1..];
      if required[i] !in seen {
        children := children + [required[i]];
      }
    }
    assert required[0..] == required;
    UnseenMembers(required, seen);
  }

  lemma TopOfStack(d: Search)
    requires d.stack != []
    ensures d.stack[|d.stack| - 1] == Top(d) && Top(d) in d.stack
  {}

  lemma UnseenShrinks(apps: Registry, seen: set<ApplicationId>, id: ApplicationId)
    requires id in apps && id !in seen
    ensures |apps.Keys - (seen + {id})| < |apps.Keys - seen|
  {
    assert apps.Keys - seen == apps.Keys - (seen + {id}) + {id};
  }

  ghost predicate SearchInvariant(apps: Registry, roots: set<ApplicationId>, rank: map<ApplicationId, nat>, d: Search) {
    && MarksInvariant(d) && ReachInvariant(apps, roots, d)
    && (Ranks(apps, roots, rank) ==> OrderInvariant(apps, rank, d))
  }

  lemma StartInvariants(apps: Registry, roots: set<ApplicationId>, rank: map<ApplicationId, nat>,
                        ids: seq<ApplicationId>)
    requires roots == Elements(ids)
    ensures SearchInvariant(apps, roots, rank, Search(ids, seq(|ids|, _ => false), {}, []))
  {
    forall id | id in ids ensures Reachable(apps, roots, id) {
      RootsAreReachable(apps, roots, id);
    }
  }

  lemma SkipStep(apps: Registry, roots: set<ApplicationId>, rank: map<ApplicationId, nat>, d: Search)
    requires SearchInvariant(apps, roots, rank, d) && d.stack != [] && Top(d) in d.result
    ensures SearchInvariant(apps, roots, rank, Pop(d))
  {
    assert Top(d) in Elements(d.result);
    PopKeepsMarks(d);
    PopKeepsReach(apps, roots, d);
    if Ranks(apps, roots, rank) {
      PopKeepsOrder(apps, rank, d);
    }
  }

  lemma EmitStep(apps: Registry, roots: set<ApplicationId>, rank: map<ApplicationId, nat>, d: Search)
    requires SearchInvariant(apps, roots, rank, d) && d.stack != [] && Top(d) in d.seen && Top(d) !in d.result
    ensures SearchInvariant(apps, roots, rank, Emit(d))
  {
    EmitKeepsMarks(d);
    EmitKeepsReach(apps, roots, d);
    if Ranks(apps, roots, rank) {
      EmitKeepsOrder(apps, rank, d);
    }
  }

  lemma ExpandStep(apps: Registry, roots: set<ApplicationId>, rank: map<ApplicationId, nat>, d: Search,
                   children: seq<ApplicationId>)
    requires SearchInvariant(apps, roots, rank, d) && d.stack != [] && Top(d) !in d.seen && Top(d) in apps
    requires forall c :: c in children <==> c in apps[Top(d)].required && c !in d.seen + {Top(d)}
    ensures SearchInvariant(apps, roots, rank, Expand(d, children))
  {
    ExpandKeepsMarks(d, children);
    ExpandKeepsReach(apps, roots, d, children);
    if Ranks(apps, roots, rank) {
      ExpandKeepsOrder(apps, roots, rank, d, children);
    }
  }

  lemma FinalStep(apps: Registry, roots: set<ApplicationId>, rank: map<ApplicationId, nat>, d: Search)
    requires SearchInvariant(apps, roots, rank, d) && d.stack == []
    requires Acyclic(apps, roots) ==> Ranks(apps, roots, rank)
    ensures forall id :: id in d.result <==> Reachable(apps, roots, id)
    ensures forall id | Reachable(apps, roots, id) :: id in apps
    ensures Topological(apps, d.result) <==> Acyclic(apps, roots)
  {
    ClosedContainsReachable(apps, roots, d.seen);
    assert forall i :: !IsMark(d, i);
    assert forall id | id in d.result :: id in Elements(d.result);
    if Topological(apps, d.result) {
      TopologicalIsAcyclic(apps, roots, d.result);
    }
  }

  ghost function IndexOf(xs: seq<ApplicationId>, x: ApplicationId): (i: nat)
    requires x in xs
    ensures i < |xs| && xs[i] == x
  {
    var i :| 0 <= i < |xs| && xs[i] == x;
    i
  }

  /** A topological order of everything reachable is itself a numbering without cycles. */
  lemma TopologicalIsAcyclic(apps: Registry, roots: set<ApplicationId>, xs: seq<ApplicationId>)
    requires NoDuplicates(xs) && Topological(apps, xs)
    requires forall id :: id in xs <==> Reachable(apps, roots, id)
    ensures Acyclic(apps, roots)
  {
    var rank := map x | x in xs :: IndexOf(xs, x);
    forall id, c | Reachable(apps, roots, id) && id in apps && c in apps[id].required
      ensures id in rank && c in rank && rank[c] < rank[id]
    {
      var i := IndexOf(xs, id);
      assert c in xs[..i];
      var j :| 0 <= j < i && xs[j] == c;
    }
    assert Ranks(apps, roots, rank);
  }
}
