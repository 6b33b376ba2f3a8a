/** The tiered selector of the working set: at most six tasks, in order of relevance. */
module WorkingSet {
  import opened Wrappers
  import opened Text

  const LIMIT := 6

  datatype Status = Backlog | Ready | InProgress | Review | Done | Blocked

  datatype Task = Task(id: string, priority: string, status: Status, dependencies: seq<string>)

  // ----- keys

  predicate IsUrgent(t: Task) {
    var p := Trim(t.priority);
    p == "P0" || p == "p0"
  }

  predicate AllDigits(s: string) {
    forall i :: 0 <= i < |s| ==> '0' <= s[i] <= '9'
  }

  function Decimal(s: string): nat
    requires AllDigits(s)
  {
    if s == "" then 0 else Decimal(s[..|s| - 1]) * 10 + ((s[|s| - 1] as int) - ('0' as int))
  }

  const U32_MAX := 0xFFFF_FFFF

  /** Parsing an unsigned 32-bit number: an optional plus sign, then at least one digit. */
  function ParseU32(s: string): Option<nat> {
    var digits := if s != "" && s[0] == '+' then s[1..] else s;
    if digits == "" || !AllDigits(digits) || Decimal(digits) > U32_MAX then None else Some(Decimal(digits))
  }

  /** The number after the P, or 99. */
  function PriorityKey(t: Task): nat {
    var p := Trim(t.priority);
    if p != "" && (p[0] == 'P' || p[0] == 'p') && ParseU32(p[1..]).Some? then ParseU32(p[1..]).value else 99
  }

  predicate KeyLess(a: Task, b: Task) {
    PriorityKey(a) < PriorityKey(b) || (PriorityKey(a) == PriorityKey(b) && Before(a.id, b.id))
  }

  lemma KeyLessIsOrder(a: Task, b: Task, c: Task)
    ensures !(KeyLess(a, b) && KeyLess(b, a))
    ensures KeyLess(a, b) && KeyLess(b, c) ==> KeyLess(a, c)
    ensures !KeyLess(b, a) && !KeyLess(c, b) ==> !KeyLess(c, a)
  {
    BeforeIsOrder(a.id, b.id, c.id);
    BeforeIsOrder(b.id, c.id, a.id);
    BeforeIsOrder(c.id, a.id, b.id);
    hide Before;
    hide PriorityKey;
  }

  /** Insertion behind everything that is not greater keeps equal keys in their order. */
  function InsertTask(sorted: seq<Task>, t: Task): seq<Task> {
    if sorted != [] && KeyLess(t, sorted[|sorted| - 1]) then
      InsertTask(sorted[..|sorted| - 1], t) + [sorted[|sorted| - 1]]
    else sorted + [t]
  }

  function SortTasks(tasks: seq<Task>): seq<Task> {
    if tasks == [] then [] else InsertTask(SortTasks(tasks[..|tasks| - 1]), tasks[|tasks| - 1])
  }

  ghost predicate Sorted(tasks: seq<Task>) {
    forall i, j :: 0 <= i < j < |tasks| ==> !KeyLess(tasks[j], tasks[i])
  }

  lemma {:induction false} InsertTaskSorts(sorted: seq<Task>, t: Task)
    requires Sorted(sorted)
    ensures Sorted(InsertTask(sorted, t)) && multiset(InsertTask(sorted, t)) == multiset(sorted) + multiset{t}
    decreases |sorted|
  {
    hide KeyLess;
    if sorted != [] {
      var front, last := sorted[..|sorted| - 1], sorted[|sorted| - 1];
      assert sorted == front + [last];
      if KeyLess(t, last) {
        InsertTaskSorts(front, t);
        var r := InsertTask(front, t);
        forall i | 0 <= i < |r| ensures !KeyLess(last, r[i]) {
          assert r[i] in multiset(r);
          KeyLessIsOrder(t, last, t);
          if r[i] != t { assert r[i] in front; }
        }
      } else {
        forall i | 0 <= i < |sorted| ensures !KeyLess(t, sorted[i]) {
          KeyLessIsOrder(sorted[i], last, t);
        }
      }
    }
  }

  lemma {:induction false} SortTasksSorts(tasks: seq<Task>)
    ensures Sorted(SortTasks(tasks)) && multiset(SortTasks(tasks)) == multiset(tasks)
    decreases |tasks|
  {
    if tasks != [] {
      var front := tasks[..|tasks| - 1];
      SortTasksSorts(front);
      InsertTaskSorts(SortTasks(front), tasks[|tasks| - 1]);
      assert tasks == front + [tasks[|tasks| - 1]];
    }
  }

  // ----- the selection as one pass over all candidates

  predicate Live(t: Task) {
    t.status != Done && t.status != Backlog
  }

  function Ids(tasks: seq<Task>): set<string> {
    set i | 0 <= i < |tasks| :: tasks[i].id
  }

  function Admitted(selected: seq<Task>, t: Task): seq<Task> {
    if |selected| < LIMIT && Live(t) && t.id !in Ids(selected) then selected + [t] else selected
  }

  function AdmitAll(selected: seq<Task>, candidates: seq<Task>): seq<Task>
    decreases |candidates|
  {
    if candidates == [] then selected else AdmitAll(Admitted(selected, candidates[0]), candidates[1..])
  }

  function Filter(keep: Task -> bool, tasks: seq<Task>): seq<Task> {
    if tasks == [] then []
    else if keep(tasks[0]) then [tasks[0]] + Filter(keep, tasks[1..])
    else Filter(keep, tasks[1..])
  }

  function Anchor(tasks: seq<Task>): seq<Task> {
    var active := Filter(HasStatus(InProgress), tasks);
    if active == [] then [] else [active[0]]
  }

  function HasStatus(status: Status): Task -> bool {
    (t: Task) => t.status == status
  }

  predicate DependsOn(anchor: Task, t: Task) {
    exists i :: 0 <= i < |anchor.dependencies| && Trim(anchor.dependencies[i]) == t.id
  }

  function IsDependencyOf(anchor: Task): Task -> bool {
    (t: Task) => DependsOn(anchor, t)
  }

  function Dependencies(tasks: seq<Task>): seq<Task> {
    var anchor := Anchor(tasks);
    if anchor == [] then [] else Filter(IsDependencyOf(anchor[0]), tasks)
  }

  /** Anchor, urgent tasks, the anchor's dependencies, then by status, the ready ones by priority. */
  function Candidates(tasks: seq<Task>): seq<Task> {
    Anchor(tasks) + (Filter(IsUrgent, tasks) + (Dependencies(tasks)
      + (Filter(HasStatus(InProgress), tasks) + (Filter(HasStatus(Review), tasks) + (Filter(HasStatus(Blocked), tasks)
      + SortTasks(Filter(HasStatus(Ready), tasks)))))))
  }

  lemma {:induction false} FullAdmitsNothing(selected: seq<Task>, candidates: seq<Task>)
    requires |selected| == LIMIT
    ensures AdmitAll(selected, candidates) == selected
    decreases |candidates|
  {
    if candidates != [] { FullAdmitsNothing(selected, candidates[1..]); }
  }

  lemma {:induction false} AdmitConcat(selected: seq<Task>, a: seq<Task>, b: seq<Task>)
    ensures AdmitAll(selected, a + b) == AdmitAll(AdmitAll(selected, a), b)
    decreases |a|
  {
    if a == [] {
      assert a + b == b;
    } else {
      assert (a + b)[1..] == a[1..] + b;
      AdmitConcat(Admitted(selected, a[0]), a[1..], b);
    }
  }

  // ----- the loops

  /** The list under construction: the tasks selected so far and the ids already seen. */
  class Selection {
    var selected: seq<Task>
    var seen: set<string>

    constructor ()
      ensures selected == [] && Valid()
    {
      selected, seen := [], {};
    }

    ghost predicate Valid()
      reads this
    {
      seen == Ids(selected) && |selected| <= LIMIT
    }

    /** `admit_working_task` */
    method Admit(t: Task)
      requires Valid()
      modifies this
      ensures Valid() && selected == Admitted(old(selected), t)
    {
      if |selected| < LIMIT && Live(t) && t.id !in seen {
        IdsAppend(selected, t);
        selected, seen := selected + [t], seen + {t.id};
      }
    }

    /** One tier: tasks of the list that pass the filter; the result says whether the set is full. */
    method AdmitTier(keep: Task -> bool, tasks: seq<Task>) returns (full: bool)
      requires Valid()
      modifies this
      ensures Valid() && selected == AdmitAll(old(selected), Filter(keep, tasks))
      ensures full ==> |selected| == LIMIT
    {
      for i := 0 to |tasks|
        invariant Valid() && AdmitAll(old(selected), Filter(keep, tasks))
          == AdmitAll(selected, Filter(keep, tasks[i..]))
      {
        assert tasks[i..][1..] == tasks[i + 1..];
        if keep(tasks[i]) {
          Admit(tasks[i]);
          if |selected| == LIMIT {
            FullAdmitsNothing(selected, Filter(keep, tasks[i + 1..]));
            return true;
          }
        }
      }
      full := false;
    }
  }

  /** The tiers with their early returns compute the one pass over all candidates. */
  method WorkingSetTasks(tasks: seq<Task>) returns (selected: seq<Task>)
    ensures selected == AdmitAll([], Candidates(tasks))
  {
    hide Filter;
    hide SortTasks;
    var selection := new Selection();
    var anchor := Anchor(tasks);
    ghost var result := AdmitAll([], Candidates(tasks));
    ghost var ready := SortTasks(Filter(HasStatus(Ready), tasks));
    ghost var blocked := Filter(HasStatus(Blocked), tasks) + ready;
    ghost var review := Filter(HasStatus(Review), tasks) + blocked;
    ghost var active := Filter(HasStatus(InProgress), tasks) + review;
    ghost var dependencies := Dependencies(tasks) + active;
    ghost var urgent := Filter(IsUrgent, tasks) + dependencies;
    AdmitConcat([], anchor, urgent);
    if anchor != [] {
      selection.Admit(anchor[0]);
      assert AdmitAll([], anchor) == AdmitAll(selection.selected, anchor[1..]);
    }
    assert result == AdmitAll(selection.selected, urgent);

    AdmitConcat(selection.selected, Filter(IsUrgent, tasks), dependencies);
    var full := selection.AdmitTier(IsUrgent, tasks);
    if full { FullAdmitsNothing(selection.selected, dependencies); return selection.selected; }

    AdmitConcat(selection.selected, Dependencies(tasks), active);
    if anchor != [] {
      full := selection.AdmitTier(IsDependencyOf(anchor[0]), tasks);
      if full { FullAdmitsNothing(selection.selected, active); return selection.selected; }
    }

    AdmitConcat(selection.selected, Filter(HasStatus(InProgress), tasks), review);
    full := selection.AdmitTier(HasStatus(InProgress), tasks);
    if full { FullAdmitsNothing(selection.selected, review); return selection.selected; }

    AdmitConcat(selection.selected, Filter(HasStatus(Review), tasks), blocked);
    full := selection.AdmitTier(HasStatus(Review), tasks);
    if full { FullAdmitsNothing(selection.selected, blocked); return selection.selected; }

    AdmitConcat(selection.selected, Filter(HasStatus(Blocked), tasks), ready);
    full := selection.AdmitTier(HasStatus(Blocked), tasks);
    if full { FullAdmitsNothing(selection.selected, ready); return selection.selected; }

    var sorted := SortTasks(Filter(HasStatus(Ready), tasks));
    FilterAll(sorted);
    full := selection.AdmitTier(Everything, sorted);
    selected := selection.selected;
  }

  predicate Everything(t: Task) {
    true
  }

  lemma {:induction false} FilterAll(tasks: seq<Task>)
    ensures Filter(Everything, tasks) == tasks
    decreases |tasks|
  {
    if tasks != [] { FilterAll(tasks[1..]); }
  }

  // ----- what the selection means

  /** The first task of every id, in order, skipping ids already seen. */
  function Distinct(tasks: seq<Task>, seen: set<string>): seq<Task>
    decreases |tasks|
  {
    if tasks == [] then []
    else if tasks[0].id in seen then Distinct(tasks[1..], seen)
    else [tasks[0]] + Distinct(tasks[1..], seen + {tasks[0].id})
  }

  function FirstSix(tasks: seq<Task>): seq<Task> {
    if |tasks| <= LIMIT then tasks else tasks[..LIMIT]
  }

  lemma {:induction false} AdmitAllIsPrefix(selected: seq<Task>, candidates: seq<Task>)
    requires |selected| <= LIMIT
    ensures AdmitAll(selected, candidates) == FirstSix(selected + Distinct(Filter(Live, candidates), Ids(selected)))
    decreases |candidates|
  {
    hide Ids;
    if candidates == [] {
      assert selected + [] == selected;
    } else {
      var t, rest := candidates[0], candidates[1..];
      var more := Filter(Live, rest);
      AdmitAllIsPrefix(Admitted(selected, t), rest);
      if Live(t) {
        assert Filter(Live, candidates) == [t] + more;
        DistinctCons(t, more, Ids(selected));
        if t.id !in Ids(selected) && |selected| < LIMIT {
          IdsAppend(selected, t);
          var d := Distinct(more, Ids(selected) + {t.id});
          assert (selected + [t]) + d == selected + ([t] + d);
        } else if |selected| == LIMIT {
          SixIsFull(selected, Distinct([t] + more, Ids(selected)));
          SixIsFull(selected, Distinct(more, Ids(selected)));
        }
      }
    }
  }

  lemma SixIsFull(selected: seq<Task>, more: seq<Task>)
    requires |selected| == LIMIT
    ensures FirstSix(selected + more) == selected
  {
  }

  lemma DistinctCons(t: Task, more: seq<Task>, seen: set<string>)
    ensures Distinct([t] + more, seen) == if t.id in seen then Distinct(more, seen)
      else [t] + Distinct(more, seen + {t.id})
  {
    assert ([t] + more)[1..] == more;
  }

  lemma IdsAppend(tasks: seq<Task>, t: Task)
    ensures Ids(tasks + [t]) == Ids(tasks) + {t.id}
  {
    var all := tasks + [t];
    assert all[|tasks|] == t && forall i :: 0 <= i < |tasks| ==> all[i] == tasks[i];
  }

  /** The working set is the first six of the tiers, without finished and backlog tasks and without repeated ids. */
  lemma WorkingSetIsFirstSix(tasks: seq<Task>)
    ensures AdmitAll([], Candidates(tasks)) == FirstSix(Distinct(Filter(Live, Candidates(tasks)), {}))
  {
    AdmitAllIsPrefix([], Candidates(tasks));
    assert Ids([]) == {};
    assert [] + Distinct(Filter(Live, Candidates(tasks)), {}) == Distinct(Filter(Live, Candidates(tasks)), {});
  }

  lemma {:induction false} FilterKeeps(keep: Task -> bool, tasks: seq<Task>, t: Task)
    ensures t in Filter(keep, tasks) <==> t in tasks && keep(t)
    decreases |tasks|
  {
    if tasks != [] {
      FilterKeeps(keep, tasks[1..], t);
      assert t in tasks <==> t == tasks[0] || t in tasks[1..];
    }
  }

  lemma IdsPrepend(t: Task, tasks: seq<Task>)
    ensures Ids([t] + tasks) == {t.id} + Ids(tasks)
  {
    var all := [t] + tasks;
    assert all[0] == t && forall i :: 0 <= i < |tasks| ==> all[i + 1] == tasks[i];
    forall id | id in Ids(tasks) ensures id in Ids(all) {
      var i :| 0 <= i < |tasks| && tasks[i].id == id;
      assert all[i + 1].id == id;
    }
  }

  lemma {:induction false} DistinctKeepsIds(tasks: seq<Task>, seen: set<string>, t: Task)
    requires t in tasks
    ensures t.id in seen || t.id in Ids(Distinct(tasks, seen))
    decreases |tasks|
  {
    hide Ids;
    assert t in tasks <==> t == tasks[0] || t in tasks[1..];
    if tasks[0].id in seen {
      if t.id != tasks[0].id { DistinctKeepsIds(tasks[1..], seen, t); }
    } else {
      var next := seen + {tasks[0].id};
      IdsPrepend(tasks[0], Distinct(tasks[1..], next));
      if t.id != tasks[0].id { DistinctKeepsIds(tasks[1..], next, t); }
    }
  }

  lemma LiveIsCandidate(tasks: seq<Task>, t: Task)
    requires t in tasks && Live(t)
    ensures t in Candidates(tasks)
  {
    FilterKeeps(HasStatus(InProgress), tasks, t);
    FilterKeeps(HasStatus(Review), tasks, t);
    FilterKeeps(HasStatus(Blocked), tasks, t);
    var ready := Filter(HasStatus(Ready), tasks);
    FilterKeeps(HasStatus(Ready), tasks, t);
    SortTasksSorts(ready);
    assert t in SortTasks(ready) <==> t in multiset(SortTasks(ready));
    assert t in ready <==> t in multiset(ready);
    hide Filter;
    hide SortTasks;
    hide Anchor;
    hide Dependencies;
  }

  /** If fewer than six tasks come back, every unfinished task outside the backlog is represented by its id. */
  lemma ShortSetIsComplete(tasks: seq<Task>, t: Task)
    requires |AdmitAll([], Candidates(tasks))| < LIMIT && t in tasks && Live(t)
    ensures t.id in Ids(AdmitAll([], Candidates(tasks)))
  {
    WorkingSetIsFirstSix(tasks);
    LiveIsCandidate(tasks, t);
    var live := Filter(Live, Candidates(tasks));
    FilterKeeps(Live, Candidates(tasks), t);
    DistinctKeepsIds(live, {}, t);
    hide Candidates;
    hide AdmitAll;
    hide Filter;
    hide Distinct;
  }
}
