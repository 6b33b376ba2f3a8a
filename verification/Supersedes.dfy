/** The supersedes graph of context cards: two cycle tests and what an error-free manifest guarantees. */
module Supersedes {
  import opened Wrappers

  type Graph = map<string, string>

  /** The node k steps after n, if the chain is that long. */
  function Follow(g: Graph, n: string, k: nat): Option<string>
    decreases k
  {
    if k == 0 then Some(n) else if n in g then Follow(g, g[n], k - 1) else None
  }

  /** n leads to m in at least one step. */
  ghost predicate Leads(g: Graph, n: string, m: string) {
    exists k: nat :: k >= 1 && Follow(g, n, k) == Some(m)
  }

  ghost predicate Cyclic(g: Graph) {
    exists n :: Leads(g, n, n)
  }

  ghost predicate Ends(g: Graph, n: string) {
    exists k: nat :: Follow(g, n, k) == None
  }

  // ----- chains

  lemma {:induction false} FollowSum(g: Graph, n: string, j: nat, k: nat)
    ensures Follow(g, n, j + k) == match Follow(g, n, j) case None => None case Some(m) => Follow(g, m, k)
    decreases j
  {
    if j > 0 && n in g {
      FollowSum(g, g[n], j - 1, k);
    }
  }

  lemma LeadsStep(g: Graph, n: string, m: string)
    requires Leads(g, n, m) && m in g
    ensures Leads(g, n, g[m])
  {
    var k: nat :| k >= 1 && Follow(g, n, k) == Some(m);
    FollowSum(g, n, k, 1);
    assert Follow(g, m, 1) == Follow(g, g[m], 0);
    assert Follow(g, n, k + 1) == Some(g[m]);
  }

  lemma LeadsOne(g: Graph, n: string)
    requires n in g
    ensures Leads(g, n, g[n])
  {
    assert Follow(g, n, 1) == Follow(g, g[n], 0) == Some(g[n]);
  }

  lemma EndsStep(g: Graph, n: string)
    ensures n !in g ==> Ends(g, n)
    ensures n in g ==> (Ends(g, n) <==> Ends(g, g[n]))
  {
    if n !in g {
      assert Follow(g, n, 1) == None;
    } else {
      if Ends(g, n) {
        var k: nat :| Follow(g, n, k) == None;
        assert Follow(g, g[n], k - 1) == None;
      }
      if Ends(g, g[n]) {
        var k: nat :| Follow(g, g[n], k) == None;
        assert Follow(g, n, k + 1) == None;
      }
    }
  }

  /** Once at its end, a chain stays there. */
  lemma {:induction false} EndedStays(g: Graph, n: string, j: nat, k: nat)
    requires j <= k && Follow(g, n, j) == None
    ensures Follow(g, n, k) == None
    decreases j
  {
    if n in g {
      EndedStays(g, g[n], j - 1, k - 1);
    }
  }

  /** A node on a cycle comes back after every number of rounds. */
  lemma {:induction false} Rounds(g: Graph, n: string, k: nat, rounds: nat)
    requires Follow(g, n, k) == Some(n)
    ensures Follow(g, n, k * rounds) == Some(n)
    decreases rounds
  {
    if rounds > 0 {
      Rounds(g, n, k, rounds - 1);
      FollowSum(g, n, k, k * (rounds - 1));
      assert k + k * (rounds - 1) == k * rounds;
    }
  }

  lemma LoopNeverEnds(g: Graph, n: string)
    requires Leads(g, n, n)
    ensures !Ends(g, n)
  {
    var k: nat :| k >= 1 && Follow(g, n, k) == Some(n);
    forall j: nat ensures Follow(g, n, j) != None {
      Rounds(g, n, k, j);
      assert j <= k * j;
      if Follow(g, n, j) == None { EndedStays(g, n, j, k * j); }
    }
  }

  /** More elements than a set holds: two are equal. */
  lemma {:induction false} Pigeonhole(nodes: seq<string>, keys: set<string>) returns (i: nat, j: nat)
    requires |nodes| > |keys| && forall k :: 0 <= k < |nodes| ==> nodes[k] in keys
    ensures i < j < |nodes| && nodes[i] == nodes[j]
    decreases |nodes|
  {
    var last := nodes[|nodes| - 1];
    if k :| 0 <= k < |nodes| - 1 && nodes[k] == last {
      i, j := k, |nodes| - 1;
    } else {
      assert last in keys;
      i, j := Pigeonhole(nodes[..|nodes| - 1], keys - {last});
    }
  }

  /** The first `count` nodes of a chain that is long enough. */
  ghost function Chain(g: Graph, n: string, count: nat): (nodes: seq<string>)
    requires forall k :: 0 <= k < count ==> Follow(g, n, k).Some?
    ensures |nodes| == count && forall i :: 0 <= i < count ==> Follow(g, n, i) == Some(nodes[i])
  {
    seq(count, i requires 0 <= i < count => Follow(g, n, i).value)
  }

  /** A chain with more nodes than it has to choose from comes back to one of them. */
  lemma LongChainIsCyclic(g: Graph, n: string, keys: set<string>, count: nat)
    requires |keys| < count && forall k :: 0 <= k < count ==> Follow(g, n, k).Some? && Follow(g, n, k).value in keys
    ensures Cyclic(g)
  {
    var nodes := Chain(g, n, count);
    forall k | 0 <= k < count ensures nodes[k] in keys {
      assert Follow(g, n, k) == Some(nodes[k]);
    }
    var i, j := Pigeonhole(nodes, keys);
    FollowSum(g, n, i, j - i);
    assert Leads(g, nodes[i], nodes[i]);
  }

  /** A chain that does not end runs into a cycle. */
  lemma EndlessIsCyclic(g: Graph, n: string)
    requires !Ends(g, n)
    ensures Cyclic(g)
  {
    forall k: nat ensures Follow(g, n, k).Some? && Follow(g, n, k).value in g.Keys {
      assert Follow(g, n, k) != None && Follow(g, n, k + 1) != None;
      FollowSum(g, n, k, 1);
    }
    LongChainIsCyclic(g, n, g.Keys, |g.Keys| + 1);
  }

  /** The graph has a cycle exactly if the chain of some key never ends. */
  lemma CyclicIff(g: Graph)
    ensures Cyclic(g) <==> exists n :: n in g && !Ends(g, n)
  {
    if Cyclic(g) {
      var n :| Leads(g, n, n);
      LoopNeverEnds(g, n);
      EndsStep(g, n);
    }
    if n :| n in g && !Ends(g, n) {
      EndlessIsCyclic(g, n);
    }
  }

  // ----- `graph_has_cycle`

  /** The recursive walk with its two mutable sets. */
  class CycleFinder {
    const graph: Graph
    var visiting: set<string>
    var done: set<string>

    constructor (graph: Graph)
      ensures this.graph == graph && visiting == {} && done == {}
    {
      this.graph, visiting, done := graph, {}, {};
    }

    ghost predicate DoneEnd()
      reads this
    {
      forall n :: n in done ==> Ends(graph, n)
    }

    method Visit(node: string) returns (cycle: bool)
      requires DoneEnd() && forall v :: v in visiting ==> v in graph && Leads(graph, v, node)
      modifies this
      ensures cycle <==> !Ends(graph, node)
      ensures visiting == old(visiting) && (!cycle ==> DoneEnd())
      decreases graph.Keys - visiting
    {
      if node in visiting {
        LoopNeverEnds(graph, node);
        return true;
      }
      if node in done { return false; }
      ghost var before := visiting;
      visiting := visiting + {node};
      cycle := false;
      EndsStep(graph, node);
      if node in graph {
        LeadsOne(graph, node);
        forall v | v in before ensures Leads(graph, v, graph[node]) { LeadsStep(graph, v, node); }
        cycle := Visit(graph[node]);
      }
      visiting := visiting - {node};
      done := done + {node};
    }

    /** `any` over the keys, in whatever order they come. */
    method HasCycle() returns (cycle: bool)
      requires visiting == {} && done == {}
      modifies this
      ensures cycle <==> Cyclic(graph)
    {
      CyclicIff(graph);
      var rest := graph.Keys;
      while rest != {}
        invariant rest <= graph.Keys && visiting == {} && DoneEnd()
        invariant forall n :: n in graph.Keys - rest ==> Ends(graph, n)
        decreases rest
      {
        var node :| node in rest;
        cycle := Visit(node);
        if cycle { return; }
        rest := rest - {node};
      }
      cycle := false;
    }
  }

  // ----- the walk in `contextual_recall.py`

  /** Follows the chain of every start and remembers the nodes seen. */
  method WalkAll(graph: Graph) returns (cycle: bool)
    ensures cycle <==> Cyclic(graph)
  {
    CyclicIff(graph);
    var rest := graph.Keys;
    while rest != {}
      invariant rest <= graph.Keys
      invariant forall n :: n in graph.Keys - rest ==> Ends(graph, n)
      decreases rest
    {
      var start :| start in rest;
      cycle := WalkOne(graph, start);
      if cycle { return; }
      rest := rest - {start};
    }
    cycle := false;
  }

  method WalkOne(graph: Graph, start: string) returns (cycle: bool)
    ensures cycle <==> !Ends(graph, start)
  {
    var seen: set<string> := {};
    var node := start;
    ghost var steps := 0;
    while node in graph
      invariant Follow(graph, start, steps) == Some(node) && seen <= graph.Keys
      invariant forall s :: s in seen ==> Leads(graph, s, node)
      invariant Ends(graph, start) <==> Ends(graph, node)
      decreases graph.Keys - seen
    {
      if node in seen {
        LoopNeverEnds(graph, node);
        return true;
      }
      forall s | s in seen ensures Leads(graph, s, graph[node]) { LeadsStep(graph, s, node); }
      LeadsOne(graph, node);
      EndsStep(graph, node);
      FollowSum(graph, start, steps, 1);
      assert Follow(graph, node, 1) == Follow(graph, graph[node], 0);
      seen := seen + {node};
      node, steps := graph[node], steps + 1;
    }
    EndsStep(graph, node);
    cycle := false;
  }

  // ----- the supersedes checks of a manifest

  /** What the checks read of one card. */
  datatype Card = Card(id: string, scope: Option<string>, supersedes: Option<string>)

  datatype Problem =
    | UnsafeId(index: nat) | RepeatedId(index: nat) | UnsafeTarget(index: nat)
    | MissingCard(id: string) | OtherScope(id: string) | Cycle

  function Ids(cards: seq<Card>): set<string> {
    set i | 0 <= i < |cards| :: cards[i].id
  }

  /** The edges collected from the cards, later cards replacing earlier ones of the same id. */
  function Edges(cards: seq<Card>): Graph {
    if cards == [] then map[]
    else
      var rest, last := Edges(cards[..|cards| - 1]), cards[|cards| - 1];
      if last.supersedes.Some? then rest[last.id := last.supersedes.value] else rest
  }

  function Scopes(cards: seq<Card>): map<string, string> {
    if cards == [] then map[]
    else
      var rest, last := Scopes(cards[..|cards| - 1]), cards[|cards| - 1];
      if last.scope.Some? then rest[last.id := last.scope.value] else rest
  }

  function Lookup(m: map<string, string>, id: string): Option<string> {
    if id in m then Some(m[id]) else None
  }

  /** Ids and targets are safe, and no id is used twice. */
  ghost predicate CleanCards(safe: string -> bool, cards: seq<Card>) {
    && (forall i :: 0 <= i < |cards| ==>
      safe(cards[i].id) && (cards[i].supersedes.Some? ==> safe(cards[i].supersedes.value)))
    && forall i, j :: 0 <= i < j < |cards| ==> cards[i].id != cards[j].id
  }

  /** Every target is a card of the same scope. */
  ghost predicate Resolved(cards: seq<Card>) {
    forall i :: 0 <= i < |cards| && cards[i].supersedes.Some? ==>
      exists j :: 0 <= j < |cards| && cards[j].id == cards[i].supersedes.value && cards[j].scope == cards[i].scope
  }

  ghost predicate ErrorFree(safe: string -> bool, cards: seq<Card>) {
    CleanCards(safe, cards) && Resolved(cards) && !Cyclic(Edges(cards))
  }

  /** With distinct ids the collected maps say what the cards say. */
  lemma {:induction false} MapsOfCards(cards: seq<Card>)
    requires forall i, j :: 0 <= i < j < |cards| ==> cards[i].id != cards[j].id
    ensures forall i :: 0 <= i < |cards| ==>
      Lookup(Edges(cards), cards[i].id) == cards[i].supersedes && Lookup(Scopes(cards), cards[i].id) == cards[i].scope
    ensures Edges(cards).Keys <= Ids(cards) && Scopes(cards).Keys <= Ids(cards)
    decreases |cards|
  {
    if cards != [] {
      var front := cards[..|cards| - 1];
      MapsOfCards(front);
      assert forall i :: 0 <= i < |front| ==> front[i] == cards[i];
      assert cards[|cards| - 1].id !in Ids(front);
      assert Ids(front) <= Ids(cards) && cards[|cards| - 1].id in Ids(cards);
    }
  }

  /** The per-edge test of the validator. */
  predicate EdgeFine(ids: set<string>, scopes: map<string, string>, id: string, target: string) {
    target in ids && Lookup(scopes, id) == Lookup(scopes, target)
  }

  lemma ResolvedIff(safe: string -> bool, cards: seq<Card>)
    requires CleanCards(safe, cards)
    ensures Resolved(cards) <==> forall id :: id in Edges(cards) ==>
      EdgeFine(Ids(cards), Scopes(cards), id, Edges(cards)[id])
  {
    MapsOfCards(cards);
    var g, ids, scopes := Edges(cards), Ids(cards), Scopes(cards);
    if Resolved(cards) {
      forall id | id in g ensures EdgeFine(ids, scopes, id, g[id]) {
        var i :| 0 <= i < |cards| && cards[i].id == id;
        assert Lookup(g, cards[i].id) == cards[i].supersedes;
        var j :| 0 <= j < |cards| && cards[j].id == cards[i].supersedes.value && cards[j].scope == cards[i].scope;
      }
    }
    if forall id :: id in g ==> EdgeFine(ids, scopes, id, g[id]) {
      forall i | 0 <= i < |cards| && cards[i].supersedes.Some?
        ensures exists j ::
          0 <= j < |cards| && cards[j].id == cards[i].supersedes.value && cards[j].scope == cards[i].scope
      {
        assert Lookup(g, cards[i].id) == cards[i].supersedes;
        assert EdgeFine(ids, scopes, cards[i].id, g[cards[i].id]);
        var j :| 0 <= j < |cards| && cards[j].id == cards[i].supersedes.value;
      }
    }
  }

  // ----- what is reported

  /** A card whose target is not safe adds no edge. */
  function Screened(safe: string -> bool, cards: seq<Card>): (r: seq<Card>)
    ensures |r| == |cards|
  {
    seq(|cards|, i requires 0 <= i < |cards| =>
      if cards[i].supersedes.Some? && !safe(cards[i].supersedes.value) then cards[i].(supersedes := None) else cards[i])
  }

  function SafeIds(safe: string -> bool, cards: seq<Card>): set<string> {
    set i | 0 <= i < |cards| && safe(cards[i].id) :: cards[i].id
  }

  /** The problems of single cards. */
  ghost predicate CardProblem(safe: string -> bool, cards: seq<Card>, p: Problem) {
    match p
    case UnsafeId(n) => n < |cards| && !safe(cards[n].id)
    case RepeatedId(n) => n < |cards| && safe(cards[n].id) && exists m :: 0 <= m < n && cards[m].id == cards[n].id
    case UnsafeTarget(n) => n < |cards| && cards[n].supersedes.Some? && !safe(cards[n].supersedes.value)
    case _ => false
  }

  /** The problems of single edges. */
  ghost predicate EdgeProblem(g: Graph, ids: set<string>, scopes: map<string, string>, p: Problem) {
    match p
    case MissingCard(id) => id in g && g[id] !in ids
    case OtherScope(id) => id in g && g[id] in ids && Lookup(scopes, id) != Lookup(scopes, g[id])
    case _ => false
  }

  ghost predicate Problematic(safe: string -> bool, cards: seq<Card>, p: Problem) {
    var g := Edges(Screened(safe, cards));
    CardProblem(safe, cards, p) || EdgeProblem(g, SafeIds(safe, cards), Scopes(cards), p) || (p == Cycle && Cyclic(g))
  }

  lemma CleanIsWithoutProblem(safe: string -> bool, cards: seq<Card>)
    ensures CleanCards(safe, cards) <==> forall p :: !CardProblem(safe, cards, p)
  {
    if forall p :: !CardProblem(safe, cards, p) {
      forall i | 0 <= i < |cards| ensures safe(cards[i].id)
        && (cards[i].supersedes.Some? ==> safe(cards[i].supersedes.value))
      {
        assert !CardProblem(safe, cards, UnsafeId(i)) && !CardProblem(safe, cards, UnsafeTarget(i));
      }
      forall i, j | 0 <= i < j < |cards| ensures cards[i].id != cards[j].id {
        assert !CardProblem(safe, cards, RepeatedId(j));
      }
    }
  }

  lemma ResolvedIsWithoutProblem(safe: string -> bool, cards: seq<Card>)
    requires CleanCards(safe, cards)
    ensures Resolved(cards) <==> forall p :: !EdgeProblem(Edges(cards), Ids(cards), Scopes(cards), p)
  {
    ResolvedIff(safe, cards);
    var g, ids, scopes := Edges(cards), Ids(cards), Scopes(cards);
    forall id | id in g ensures EdgeFine(ids, scopes, id, g[id]) <==>
      !EdgeProblem(g, ids, scopes, MissingCard(id)) && !EdgeProblem(g, ids, scopes, OtherScope(id)) {
    }
    hide EdgeFine;
    if forall id :: id in g ==> EdgeFine(ids, scopes, id, g[id]) {
      forall p ensures !EdgeProblem(g, ids, scopes, p) {
        if p.MissingCard? || p.OtherScope? { assert p.id in g ==> EdgeFine(ids, scopes, p.id, g[p.id]); }
      }
    }
  }

  /** No problem is reported exactly for error-free cards. */
  lemma ErrorFreeIff(safe: string -> bool, cards: seq<Card>)
    ensures ErrorFree(safe, cards) <==> forall p :: !Problematic(safe, cards, p)
  {
    CleanIsWithoutProblem(safe, cards);
    if CleanCards(safe, cards) {
      assert Screened(safe, cards) == cards && SafeIds(safe, cards) == Ids(cards);
      ResolvedIsWithoutProblem(safe, cards);
      hide EdgeProblem;
      hide CardProblem;
      hide Cyclic;
      hide Resolved;
      if forall p :: !Problematic(safe, cards, p) {
        assert !Problematic(safe, cards, Cycle);
        forall p ensures !EdgeProblem(Edges(cards), Ids(cards), Scopes(cards), p) {
          assert !Problematic(safe, cards, p);
        }
      }
      if Resolved(cards) && !Cyclic(Edges(cards)) {
        forall p ensures !Problematic(safe, cards, p) {
          assert !CardProblem(safe, cards, p) && !EdgeProblem(Edges(cards), Ids(cards), Scopes(cards), p);
        }
      }
    } else {
      var p :| CardProblem(safe, cards, p);
      assert Problematic(safe, cards, p);
    }
  }

  lemma NextCard(safe: string -> bool, cards: seq<Card>, n: nat)
    requires n < |cards|
    ensures var front, next, card := cards[..n], cards[..n + 1], cards[n];
      && SafeIds(safe, next) == SafeIds(safe, front) + (if safe(card.id) then {card.id} else {})
      && Scopes(next) == (if card.scope.Some? then Scopes(front)[card.id := card.scope.value] else Scopes(front))
      && Edges(Screened(safe, next)) ==
           (if card.supersedes.Some? && safe(card.supersedes.value)
            then Edges(Screened(safe, front))[card.id := card.supersedes.value] else Edges(Screened(safe, front)))
  {
    var front, next := cards[..n], cards[..n + 1];
    assert next[..n] == front && next[n] == cards[n];
    assert forall i :: 0 <= i < n ==> next[i] == front[i];
    assert Screened(safe, next)[..n] == Screened(safe, front);
  }

  /** The problems that the next card adds to those of the cards before it. */
  lemma NextProblems(safe: string -> bool, cards: seq<Card>, n: nat, p: Problem)
    requires n < |cards|
    ensures CardProblem(safe, cards[..n + 1], p) <==>
      || CardProblem(safe, cards[..n], p)
      || (p == UnsafeId(n) && !safe(cards[n].id))
      || (p == RepeatedId(n) && safe(cards[n].id) && cards[n].id in SafeIds(safe, cards[..n]))
      || (p == UnsafeTarget(n) && cards[n].supersedes.Some? && !safe(cards[n].supersedes.value))
  {
    var front, next := cards[..n], cards[..n + 1];
    assert forall i :: 0 <= i < n ==> next[i] == front[i];
    assert next[n] == cards[n];
    if p.RepeatedId? && p.index <= n && safe(next[p.index].id) {
      assert (exists m :: 0 <= m < p.index && next[m].id == next[p.index].id) <==>
        next[p.index].id in SafeIds(safe, next[..p.index]) by {
        assert forall i :: 0 <= i < p.index ==> next[..p.index][i] == next[i];
      }
      assert next[..n] == front;
    }
  }

  /** The collection loop, the edge loop and the cycle test report exactly the problems there are. */
  method ValidateSupersedes(safe: string -> bool, cards: seq<Card>) returns (errors: seq<Problem>)
    ensures forall p :: p in errors <==> Problematic(safe, cards, p)
    ensures errors == [] <==> ErrorFree(safe, cards)
  {
    ErrorFreeIff(safe, cards);
    hide CardProblem;
    hide Cyclic;
    errors := [];
    var ids: set<string> := {};
    var scopes: map<string, string> := map[];
    var graph: Graph := map[];
    assert forall p :: !CardProblem(safe, cards[..0], p) by { CleanIsWithoutProblem(safe, cards[..0]); }
    for n := 0 to |cards|
      invariant forall p :: p in errors <==> CardProblem(safe, cards[..n], p)
      invariant ids == SafeIds(safe, cards[..n]) && scopes == Scopes(cards[..n])
      invariant graph == Edges(Screened(safe, cards[..n]))
    {
      var card := cards[n];
      NextCard(safe, cards, n);
      ghost var before := errors;
      forall p ensures CardProblem(safe, cards[..n + 1], p) <==>
        || p in before || (p == UnsafeId(n) && !safe(card.id))
        || (p == RepeatedId(n) && safe(card.id) && card.id in ids)
        || (p == UnsafeTarget(n) && card.supersedes.Some? && !safe(card.supersedes.value)) {
        NextProblems(safe, cards, n, p);
      }
      ghost var repeated := card.id in ids;
      if !safe(card.id) {
        errors := errors + [UnsafeId(n)];
      } else if card.id in ids {
        errors := errors + [RepeatedId(n)];
      } else {
        ids := ids + {card.id};
      }
      if card.scope.Some? {
        scopes := scopes[card.id := card.scope.value];
      }
      if card.supersedes.Some? {
        if !safe(card.supersedes.value) {
          errors := errors + [UnsafeTarget(n)];
        } else {
          graph := graph[card.id := card.supersedes.value];
        }
      }
      assert forall p :: p in errors <==>
        || p in before || (p == UnsafeId(n) && !safe(card.id)) || (p == RepeatedId(n) && safe(card.id) && repeated)
        || (p == UnsafeTarget(n) && card.supersedes.Some? && !safe(card.supersedes.value));
    }
    assert cards[..|cards|] == cards;
    var rest := graph.Keys;
    while rest != {}
      invariant rest <= graph.Keys
      invariant forall p :: p in errors <==>
        CardProblem(safe, cards, p) || (EdgeProblem(graph, ids, scopes, p) && p.id !in rest)
      decreases rest
    {
      var id :| id in rest;
      if graph[id] !in ids {
        errors := errors + [MissingCard(id)];
      } else if Lookup(scopes, id) != Lookup(scopes, graph[id]) {
        errors := errors + [OtherScope(id)];
      }
      rest := rest - {id};
    }
    var finder := new CycleFinder(graph);
    var cycle := finder.HasCycle();
    if cycle {
      errors := errors + [Cycle];
    }
    if errors != [] { assert errors[0] in errors; }
  }

  /** In an error-free manifest every supersedes chain ends within the number of cards and stays in one scope. */
  lemma ChainsEndInScope(safe: string -> bool, cards: seq<Card>, i: nat)
    requires ErrorFree(safe, cards) && i < |cards|
    ensures Follow(Edges(cards), cards[i].id, |cards|) == None
    ensures forall k: nat :: Follow(Edges(cards), cards[i].id, k).Some? ==>
      exists j ::
        && 0 <= j < |cards| && cards[j].id == Follow(Edges(cards), cards[i].id, k).value
        && cards[j].scope == cards[i].scope
  {
    var g, n := Edges(cards), cards[i].id;
    forall k: nat | Follow(g, n, k).Some?
      ensures exists j :: 0 <= j < |cards| && cards[j].id == Follow(g, n, k).value && cards[j].scope == cards[i].scope
    {
      var j := ChainCard(safe, cards, i, k);
    }
    if Follow(g, n, |cards|).Some? {
      forall k | 0 <= k <= |cards| ensures Follow(g, n, k).Some? && Follow(g, n, k).value in Ids(cards) {
        if Follow(g, n, k) == None { EndedStays(g, n, k, |cards|); }
        var j := ChainCard(safe, cards, i, k);
      }
      IdsAreFew(cards);
      LongChainIsCyclic(g, n, Ids(cards), |cards| + 1);
    }
  }

  lemma {:induction false} IdsAreFew(cards: seq<Card>)
    ensures |Ids(cards)| <= |cards|
    decreases |cards|
  {
    if cards != [] {
      var front := cards[..|cards| - 1];
      IdsAreFew(front);
      assert forall i :: 0 <= i < |front| ==> front[i] == cards[i];
      assert Ids(cards) == Ids(front) + {cards[|cards| - 1].id};
    }
  }

  lemma {:induction false} ChainCard(safe: string -> bool, cards: seq<Card>, i: nat, k: nat) returns (j: nat)
    requires CleanCards(safe, cards) && Resolved(cards) && i < |cards| && Follow(Edges(cards), cards[i].id, k).Some?
    ensures j < |cards| && cards[j].id == Follow(Edges(cards), cards[i].id, k).value && cards[j].scope == cards[i].scope
    decreases k
  {
    j := i;
    if k > 0 {
      MapsOfCards(cards);
      assert Lookup(Edges(cards), cards[i].id) == cards[i].supersedes;
      var t :| 0 <= t < |cards| && cards[t].id == cards[i].supersedes.value && cards[t].scope == cards[i].scope;
      j := ChainCard(safe, cards, t, k - 1);
    }
  }
}
