/** In which order tasks enter the working set, stated by a rank of the tasks. */
module WorkingSetOrder {
  import opened Text
  import opened WorkingSet
  import opened Wrappers
  import JsonText

  // ----- the rank

  /** The first position of a task in the list. */
  function Position(tasks: seq<Task>, t: Task): nat {
    if tasks == [] || tasks[0] == t then 0 else 1 + Position(tasks[1..], t)
  }

  ghost predicate IsAnchor(tasks: seq<Task>, t: Task) {
    && t in tasks && t.status == InProgress
    && forall i :: 0 <= i < |tasks| && tasks[i].status == InProgress ==> Position(tasks, t) <= i
  }

  ghost predicate AnchorDependsOn(tasks: seq<Task>, t: Task) {
    exists a: Task, i :: IsAnchor(tasks, a) && 0 <= i < |a.dependencies| && Trim(a.dependencies[i]) == t.id
  }

  /** What speaks for a task, strongest first. */
  ghost predicate Speaks(tasks: seq<Task>, t: Task, rank: nat) {
    match rank
    case 0 => IsAnchor(tasks, t)
    case 1 => Trim(t.priority) in {"P0", "p0"}
    case 2 => AnchorDependsOn(tasks, t)
    case 3 => t.status == InProgress
    case 4 => t.status == Review
    case 5 => t.status == Blocked
    case 6 => t.status == Ready
    case _ => false
  }

  ghost predicate HasRank(tasks: seq<Task>, t: Task, rank: nat) {
    Speaks(tasks, t, rank) && forall r: nat :: r < rank ==> !Speaks(tasks, t, r)
  }

  /** Ready tasks come by the number of their priority, those of the same number by id. */
  ghost predicate ReadyInOrder(a: Task, b: Task) {
    PriorityKey(a) < PriorityKey(b) || (PriorityKey(a) == PriorityKey(b) && !Before(b.id, a.id))
  }

  /** All others of the same rank come in the order of the list. */
  ghost predicate Precedes(tasks: seq<Task>, a: Task, b: Task) {
    exists p: nat, q: nat :: HasRank(tasks, a, p) && HasRank(tasks, b, q)
      && (p < q || (p == q && if p == 6 then ReadyInOrder(a, b) else Position(tasks, a) <= Position(tasks, b)))
  }

  // ----- the number of a priority

  lemma {:induction false} DecimalReads(n: nat)
    ensures AllDigits(JsonText.Decimal(n)) && Decimal(JsonText.Decimal(n)) == n && JsonText.Decimal(n) != ""
    decreases n
  {
    var s := JsonText.Decimal(n);
    if n < 10 {
      assert Decimal(s[..0]) == 0 && s[..0] == "";
    } else {
      DecimalReads(n / 10);
      assert s[..|s| - 1] == JsonText.Decimal(n / 10);
    }
  }

  function Signed(plus: bool, n: nat): string {
    if plus then "+" + JsonText.Decimal(n) else JsonText.Decimal(n)
  }

  lemma SignedParses(plus: bool, n: nat)
    ensures ParseU32(Signed(plus, n)) == if n <= U32_MAX then Some(n) else None
    ensures var s := Signed(plus, n); s != "" && !IsSpace(s[|s| - 1])
  {
    var digits, s := JsonText.Decimal(n), Signed(plus, n);
    DecimalReads(n);
    hide Decimal;
    hide JsonText.Decimal;
    assert '0' <= digits[0] <= '9' && '0' <= digits[|digits| - 1] <= '9';
    assert plus ==> s[0] == '+' && s[1..] == digits;
    assert s[|s| - 1] == digits[|digits| - 1];
  }

  /** P and a number, in either case, with or without a plus sign and with spaces around: that number, if it fits. */
  lemma PriorityOfNumber(t: Task, letter: char, plus: bool, n: nat, lead: string, trail: string)
    requires letter in {'P', 'p'} && AllSpaces(lead) && AllSpaces(trail)
    requires t.priority == lead + ([letter] + Signed(plus, n)) + trail
    ensures PriorityKey(t) == if n <= U32_MAX then n else 99
  {
    var number := Signed(plus, n);
    SignedParses(plus, n);
    hide Signed;
    hide ParseU32;
    assert !IsSpace('P') && !IsSpace('p');
    hide IsSpace;
    TrimBetween(lead, [letter] + number, trail);
    hide Trim;
    assert ([letter] + number)[1..] == number;
  }

  /** A priority that starts with another letter, or has no digit after its letter, counts as 99. */
  lemma PriorityOfOther(t: Task)
    requires var p := Trim(t.priority);
      p == "" || p[0] !in {'P', 'p'} || p[1..] == "" || p[1..] == "+" || (p[1] != '+' && !('0' <= p[1] <= '9'))
    ensures PriorityKey(t) == 99
  {
    hide Trim;
  }

  // ----- the tiers are the ranks

  ghost function Tier(tasks: seq<Task>, rank: nat): seq<Task> {
    match rank
    case 0 => Anchor(tasks)
    case 1 => Filter(IsUrgent, tasks)
    case 2 => Dependencies(tasks)
    case 3 => Filter(HasStatus(InProgress), tasks)
    case 4 => Filter(HasStatus(Review), tasks)
    case 5 => Filter(HasStatus(Blocked), tasks)
    case 6 => SortTasks(Filter(HasStatus(Ready), tasks))
    case _ => []
  }

  ghost function TiersFrom(tasks: seq<Task>, rank: nat): seq<Task>
    decreases 7 - rank
  {
    if rank >= 7 then [] else Tier(tasks, rank) + TiersFrom(tasks, rank + 1)
  }

  lemma CandidatesAreTiers(tasks: seq<Task>)
    ensures Candidates(tasks) == TiersFrom(tasks, 0)
  {
    assert TiersFrom(tasks, 7) == [];
    assert TiersFrom(tasks, 6) == Tier(tasks, 6);
    assert TiersFrom(tasks, 5) == Tier(tasks, 5) + TiersFrom(tasks, 6);
    assert TiersFrom(tasks, 4) == Tier(tasks, 4) + TiersFrom(tasks, 5);
    assert TiersFrom(tasks, 3) == Tier(tasks, 3) + TiersFrom(tasks, 4);
    assert TiersFrom(tasks, 2) == Tier(tasks, 2) + TiersFrom(tasks, 3);
    assert TiersFrom(tasks, 1) == Tier(tasks, 1) + TiersFrom(tasks, 2);
    assert TiersFrom(tasks, 0) == Tier(tasks, 0) + TiersFrom(tasks, 1);
    hide Filter;
    hide SortTasks;
    hide Anchor;
    hide Dependencies;
  }

  /** The first kept task is the kept one with the smallest position. */
  lemma {:induction false} FilterOrder(keep: Task -> bool, tasks: seq<Task>, i: nat, j: nat)
    requires i <= j < |Filter(keep, tasks)|
    ensures var f := Filter(keep, tasks); f[j] !in f[..j] || i == j ==> Position(tasks, f[i]) <= Position(tasks, f[j])
    decreases |tasks|
  {
    var f, rest := Filter(keep, tasks), tasks[1..];
    if keep(tasks[0]) {
      if i == 0 {
        assert f[0] == tasks[0];
      } else {
        var g := Filter(keep, rest);
        FilterOrder(keep, rest, i - 1, j - 1);
        assert f[i] == g[i - 1] && f[j] == g[j - 1];
        if f[j] !in f[..j] {
          assert f[0] in f[..j];
          forall x | x in g[..j - 1] ensures x in f[..j] {
            var k :| 0 <= k < j - 1 && g[k] == x;
            assert f[k + 1] == x;
          }
        }
      }
    } else {
      FilterOrder(keep, rest, i, j);
      FilterKeeps(keep, rest, f[i]);
      FilterKeeps(keep, rest, f[j]);
    }
  }

  lemma {:induction false} PositionHolds(tasks: seq<Task>, t: Task)
    requires t in tasks
    ensures Position(tasks, t) < |tasks| && tasks[Position(tasks, t)] == t
    ensures forall i :: 0 <= i < |tasks| && tasks[i] == t ==> Position(tasks, t) <= i
    decreases |tasks|
  {
    if tasks[0] != t { PositionHolds(tasks[1..], t); }
  }

  lemma {:induction false} FirstAt(s: seq<Task>, t: Task) returns (j: nat)
    requires t in s
    ensures j < |s| && s[j] == t && t !in s[..j]
    decreases |s|
  {
    if t in s[..|s| - 1] {
      j := FirstAt(s[..|s| - 1], t);
      assert s[..|s| - 1][..j] == s[..j];
    } else {
      j := |s| - 1;
    }
  }

  lemma AnchorIsAnchor(tasks: seq<Task>, t: Task)
    ensures t in Anchor(tasks) <==> IsAnchor(tasks, t)
  {
    var active := Filter(HasStatus(InProgress), tasks);
    if active != [] {
      var a := active[0];
      FilterKeeps(HasStatus(InProgress), tasks, a);
      forall i | 0 <= i < |tasks| && tasks[i].status == InProgress ensures Position(tasks, a) <= i {
        FilterKeeps(HasStatus(InProgress), tasks, tasks[i]);
        var j := FirstAt(active, tasks[i]);
        FilterOrder(HasStatus(InProgress), tasks, 0, j);
        PositionHolds(tasks, tasks[i]);
      }
      assert IsAnchor(tasks, a);
      if IsAnchor(tasks, t) {
        PositionHolds(tasks, t);
        PositionHolds(tasks, a);
      }
    } else if t in tasks {
      FilterKeeps(HasStatus(InProgress), tasks, t);
    }
    hide Filter;
  }

  lemma DependenciesAreOfAnchor(tasks: seq<Task>, t: Task)
    ensures t in Dependencies(tasks) <==> t in tasks && AnchorDependsOn(tasks, t)
  {
    var anchor := Anchor(tasks);
    if anchor != [] {
      AnchorIsAnchor(tasks, anchor[0]);
      FilterKeeps(IsDependencyOf(anchor[0]), tasks, t);
    }
    forall a | IsAnchor(tasks, a) ensures anchor == [a] {
      AnchorIsAnchor(tasks, a);
    }
    hide Filter;
    hide IsAnchor;
    hide Trim;
  }

  lemma SortedHolds(tasks: seq<Task>, t: Task)
    ensures t in SortTasks(tasks) <==> t in tasks
  {
    SortTasksSorts(tasks);
    assert t in SortTasks(tasks) <==> t in multiset(SortTasks(tasks));
    assert t in tasks <==> t in multiset(tasks);
  }

  lemma TierSpeaks(tasks: seq<Task>, rank: nat, t: Task)
    ensures t in Tier(tasks, rank) <==> t in tasks && Speaks(tasks, t, rank)
  {
    match rank
    case 0 => AnchorIsAnchor(tasks, t);
    case 1 => FilterKeeps(IsUrgent, tasks, t);
    case 2 => DependenciesAreOfAnchor(tasks, t);
    case 3 => FilterKeeps(HasStatus(InProgress), tasks, t);
    case 4 => FilterKeeps(HasStatus(Review), tasks, t);
    case 5 => FilterKeeps(HasStatus(Blocked), tasks, t);
    case 6 =>
      FilterKeeps(HasStatus(Ready), tasks, t);
      SortedHolds(Filter(HasStatus(Ready), tasks), t);
    case _ =>
  }

  /** Within a tier, whatever stands before the first occurrence of a task precedes it. */
  lemma TierOrder(tasks: seq<Task>, rank: nat, i: nat, j: nat)
    requires rank < 7 && i <= j < |Tier(tasks, rank)|
    requires Tier(tasks, rank)[j] !in Tier(tasks, rank)[..j] || i == j
    ensures var a, b := Tier(tasks, rank)[i], Tier(tasks, rank)[j];
      if rank == 6 then ReadyInOrder(a, b) else Position(tasks, a) <= Position(tasks, b)
  {
    match rank
    case 0 =>
    case 1 => FilterOrder(IsUrgent, tasks, i, j);
    case 2 =>
      var anchor := Anchor(tasks);
      FilterOrder(IsDependencyOf(anchor[0]), tasks, i, j);
    case 3 => FilterOrder(HasStatus(InProgress), tasks, i, j);
    case 4 => FilterOrder(HasStatus(Review), tasks, i, j);
    case 5 => FilterOrder(HasStatus(Blocked), tasks, i, j);
    case 6 =>
      SortTasksSorts(Filter(HasStatus(Ready), tasks));
      var t := Tier(tasks, rank)[i];
      KeyLessIsOrder(t, t, t);
  }

  // ----- one pass in that order

  /** Every candidate so far that was not taken stands behind a full set, in which everything precedes it. */
  ghost predicate Best(tasks: seq<Task>, passed: seq<Task>, selected: seq<Task>) {
    && |selected| <= LIMIT
    && (forall i :: 0 <= i < |selected| ==> selected[i] in passed && Live(selected[i]))
    && (forall i, j :: 0 <= i < j < |selected| ==>
          selected[i].id != selected[j].id && Precedes(tasks, selected[i], selected[j]))
    && forall t :: t in passed && Live(t) ==>
         t.id in Ids(selected)
         || (|selected| == LIMIT && forall i :: 0 <= i < |selected| ==> Precedes(tasks, selected[i], t))
  }

  /** What has passed precedes a task that comes up for the first time. */
  ghost predicate InTurn(tasks: seq<Task>, passed: seq<Task>, t: Task) {
    t in passed || forall s :: s in passed ==> Precedes(tasks, s, t)
  }

  lemma AdmitKeepsBest(tasks: seq<Task>, passed: seq<Task>, selected: seq<Task>, t: Task)
    requires Best(tasks, passed, selected) && InTurn(tasks, passed, t)
    ensures Best(tasks, passed + [t], Admitted(selected, t))
  {
    hide Precedes;
    var next := Admitted(selected, t);
    IdsAppend(selected, t);
    assert forall s :: s in passed + [t] <==> s in passed || s == t;
    if next != selected {
      assert t !in passed;
      assert forall i :: 0 <= i < |selected| ==> selected[i].id in Ids(selected);
    }
  }

  /** Everything that has passed belongs to an earlier tier or to the front of this one. */
  ghost predicate Passed(tasks: seq<Task>, passed: seq<Task>, rank: nat, i: nat)
    requires i <= |Tier(tasks, rank)|
  {
    && (forall r: nat, t :: r < rank && t in Tier(tasks, r) ==> t in passed)
    && (forall k :: 0 <= k < i ==> Tier(tasks, rank)[k] in passed)
    && forall t :: t in passed ==>
         (exists r: nat :: r < rank && t in Tier(tasks, r)) || t in Tier(tasks, rank)[..i]
  }

  lemma {:induction false} LeastRank(tasks: seq<Task>, t: Task, rank: nat) returns (least: nat)
    requires Speaks(tasks, t, rank)
    ensures least <= rank && HasRank(tasks, t, least)
    decreases rank
  {
    if r: nat :| r < rank && Speaks(tasks, t, r) {
      least := LeastRank(tasks, t, r);
    } else {
      least := rank;
    }
  }

  lemma NextIsInTurn(tasks: seq<Task>, passed: seq<Task>, rank: nat, i: nat)
    requires rank < 7 && i < |Tier(tasks, rank)| && Passed(tasks, passed, rank, i)
    ensures InTurn(tasks, passed, Tier(tasks, rank)[i])
  {
    var tier := Tier(tasks, rank);
    var t := tier[i];
    if t !in passed {
      TierSpeaks(tasks, rank, t);
      forall r: nat | r < rank ensures !Speaks(tasks, t, r) { TierSpeaks(tasks, r, t); }
      assert HasRank(tasks, t, rank);
      forall s | s in passed ensures Precedes(tasks, s, t) {
        if r: nat :| r < rank && s in Tier(tasks, r) {
          TierSpeaks(tasks, r, s);
          var least := LeastRank(tasks, s, r);
        } else {
          var k :| 0 <= k < i && tier[k] == s;
          TierSpeaks(tasks, rank, s);
          var least := LeastRank(tasks, s, rank);
          assert t !in tier[..i];
          TierOrder(tasks, rank, k, i);
        }
      }
    }
    hide Tier;
    hide Speaks;
    hide KeyLess;
  }

  lemma PassOne(tasks: seq<Task>, passed: seq<Task>, rank: nat, i: nat)
    requires i < |Tier(tasks, rank)| && Passed(tasks, passed, rank, i)
    ensures Passed(tasks, passed + [Tier(tasks, rank)[i]], rank, i + 1)
  {
    var tier := Tier(tasks, rank);
    assert forall s :: s in passed + [tier[i]] <==> s in passed || s == tier[i];
    assert tier[..i + 1] == tier[..i] + [tier[i]];
    hide Tier;
  }

  lemma PassAll(tasks: seq<Task>, passed: seq<Task>, rank: nat)
    requires Passed(tasks, passed, rank, |Tier(tasks, rank)|)
    ensures Passed(tasks, passed, rank + 1, 0)
  {
    var tier := Tier(tasks, rank);
    assert tier[..|tier|] == tier;
    hide Tier;
    forall r: nat, t | r < rank + 1 && t in Tier(tasks, r) ensures t in passed {
      if r == rank { var k :| 0 <= k < |tier| && tier[k] == t; }
    }
  }

  lemma {:induction false} TierKeepsBest(tasks: seq<Task>, passed: seq<Task>, selected: seq<Task>, rank: nat, i: nat)
    requires rank < 7 && i <= |Tier(tasks, rank)|
    requires Passed(tasks, passed, rank, i) && Best(tasks, passed, selected)
    ensures var rest := Tier(tasks, rank)[i..];
      Passed(tasks, passed + rest, rank + 1, 0) && Best(tasks, passed + rest, AdmitAll(selected, rest))
    decreases |Tier(tasks, rank)| - i
  {
    hide Best;
    hide Admitted;
    hide InTurn;
    hide Tier;
    hide Passed;
    var tier := Tier(tasks, rank);
    if i == |tier| {
      assert passed + tier[i..] == passed;
      PassAll(tasks, passed, rank);
    } else {
      var t, next := tier[i], passed + [tier[i]];
      NextIsInTurn(tasks, passed, rank, i);
      AdmitKeepsBest(tasks, passed, selected, t);
      PassOne(tasks, passed, rank, i);
      TierKeepsBest(tasks, next, Admitted(selected, t), rank, i + 1);
      assert tier[i..][1..] == tier[i + 1..] && next + tier[i + 1..] == passed + tier[i..];
    }
  }

  lemma {:induction false} TiersKeepBest(tasks: seq<Task>, passed: seq<Task>, selected: seq<Task>, rank: nat)
    requires rank <= 7 && Passed(tasks, passed, rank, 0) && Best(tasks, passed, selected)
    ensures var all := passed + TiersFrom(tasks, rank);
      Best(tasks, all, AdmitAll(selected, TiersFrom(tasks, rank)))
      && forall r: nat, t :: r < 7 && t in Tier(tasks, r) ==> t in all
    decreases 7 - rank
  {
    hide Best;
    hide Tier;
    hide Admitted;
    if rank == 7 {
      assert passed + TiersFrom(tasks, 7) == passed;
    } else {
      var tier := Tier(tasks, rank);
      TierKeepsBest(tasks, passed, selected, rank, 0);
      assert tier[0..] == tier;
      AdmitConcat(selected, tier, TiersFrom(tasks, rank + 1));
      TiersKeepBest(tasks, passed + tier, AdmitAll(selected, tier), rank + 1);
      assert passed + TiersFrom(tasks, rank) == passed + tier + TiersFrom(tasks, rank + 1);
    }
  }

  // ----- main result

  /**
   The working set: unfinished tasks with different ids, each preceding the next by rank, then by the list, ready ones
   by number and id; a task whose id is missing stands behind a full set, in which everything precedes it.
   */
  ghost predicate BestSix(tasks: seq<Task>, selected: seq<Task>) {
    && |selected| <= LIMIT
    && (forall i :: 0 <= i < |selected| ==> selected[i] in tasks && Live(selected[i]))
    && (forall i, j :: 0 <= i < j < |selected| ==>
          selected[i].id != selected[j].id && Precedes(tasks, selected[i], selected[j]))
    && forall t :: t in tasks && Live(t) ==>
         t.id in Ids(selected)
         || (|selected| == LIMIT && forall i :: 0 <= i < |selected| ==> Precedes(tasks, selected[i], t))
  }

  lemma LiveSpeaks(tasks: seq<Task>, t: Task)
    requires t in tasks && Live(t)
    ensures exists r: nat :: r < 7 && t in Tier(tasks, r)
  {
    var r: nat := if t.status == InProgress then 3 else if t.status == Review then 4 else if t.status == Blocked then 5
      else 6;
    assert Speaks(tasks, t, r);
    TierSpeaks(tasks, r, t);
  }

  lemma CandidateIsTask(tasks: seq<Task>, t: Task)
    requires t in TiersFrom(tasks, 0)
    ensures t in tasks
  {
    CandidatesAreTiers(tasks);
    TierSpeaks(tasks, 0, t);
    TierSpeaks(tasks, 1, t);
    TierSpeaks(tasks, 2, t);
    TierSpeaks(tasks, 3, t);
    TierSpeaks(tasks, 4, t);
    TierSpeaks(tasks, 5, t);
    TierSpeaks(tasks, 6, t);
    hide Filter;
    hide SortTasks;
    hide Anchor;
    hide Dependencies;
    hide Speaks;
    hide TiersFrom;
  }

  lemma BestOfAll(tasks: seq<Task>, all: seq<Task>, selected: seq<Task>)
    requires Best(tasks, all, selected) && forall t :: t in all ==> t in tasks
    requires forall t :: t in tasks && Live(t) ==> t in all
    ensures BestSix(tasks, selected)
  {
    hide Precedes;
    hide Ids;
    hide Live;
  }

  lemma WorkingSetIsBestSix(tasks: seq<Task>)
    ensures BestSix(tasks, AdmitAll([], Candidates(tasks)))
  {
    var all := TiersFrom(tasks, 0);
    assert Passed(tasks, [], 0, 0) && Best(tasks, [], []);
    hide Best;
    hide Tier;
    TiersKeepBest(tasks, [], [], 0);
    CandidatesAreTiers(tasks);
    assert [] + all == all;
    hide TiersFrom;
    hide Candidates;
    hide AdmitAll;
    hide Passed;
    forall t | t in tasks && Live(t) ensures t in all { LiveSpeaks(tasks, t); }
    forall t | t in all ensures t in tasks { CandidateIsTask(tasks, t); }
    BestOfAll(tasks, all, AdmitAll([], Candidates(tasks)));
    hide BestSix;
  }
}
