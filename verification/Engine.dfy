/** The graph runtime: the frontier loop of `StateGraph.execute`.
  *
  * A node body is a function of its identity, the state it is given and the answers its successive
  * `interrupt()` calls have received so far; `Ask` means that it needs one more answer than it has.
  */
module Engine {
  import opened Prelude

  datatype Attempt<+U, +N> =
    | Done(update: U, goto: Option<seq<N>>)
    | Crash
    | Ask

  /** `commit` merges an update into the state and carries out the Sends that come with it;
    * `next` stands for conditional and plain edges; `end` is the END marker, `cap` is `max_iterations`.
    */
  datatype Graph<!S, !N, !U, !A> = Graph(
    start: seq<N>,
    end: N,
    node: (N, S, seq<A>) -> Attempt<U, N>,
    commit: (S, N, U) -> S,
    next: (N, S) -> seq<N>,
    cap: nat)

  datatype Stop = AtEnd | Drained | Exhausted

  /** `order` continues the history a call was given with the nodes it attempted. */
  datatype Result<+S, +N> =
    | Paused(state: S, at: N, order: seq<N>)
    | Halted(state: S, why: Stop, order: seq<N>)

  datatype Swept<+S, +N> = Held(state: S, at: N) | Moved(state: S, next: seq<N>)

  /** Only the node that is being resumed is handed the answer. */
  function AttemptNode<S, N(==), U, A>(g: Graph<S, N, U, A>, s: S, n: N, resume: Option<(N, A)>): Attempt<U, N> {
    g.node(n, s, if resume.Some? && resume.value.0 == n then [resume.value.1] else [])
  }

  /** Successors of a finished node: a goto replaces the edges. */
  function Successors<S, N, U, A>(g: Graph<S, N, U, A>, n: N, s: S, goto: Option<seq<N>>): seq<N> {
    if goto.Some? then goto.value else g.next(n, s)
  }

  /** Process the attempts of one frontier in order. Every node was run against `s0`,
    * while updates accumulate in `s`; the first interrupt ends the sweep.
    */
  function Sweep<S, N(==), U, A>(g: Graph<S, N, U, A>, s0: S, s: S, ns: seq<N>, resume: Option<(N, A)>): Swept<S, N> {
    if ns == [] then Moved(s, [])
    else if ns[0] == g.end then Sweep(g, s0, s, ns[1..], resume)
    else
      match AttemptNode(g, s0, ns[0], resume)
      case Ask => Held(s, ns[0])
      case Crash => Sweep(g, s0, s, ns[1..], resume)
      case Done(u, goto) =>
        var s' := g.commit(s, ns[0], u);
        Prepend(Successors(g, ns[0], s', goto), Sweep(g, s0, s', ns[1..], resume))
  }

  function Prepend<S, N>(nx: seq<N>, w: Swept<S, N>): Swept<S, N> {
    match w
    case Held(_, _) => w
    case Moved(s, rest) => Moved(s, nx + rest)
  }

  /** The nodes of a frontier that are actually run. */
  function Attempted<S, N(==), U, A>(g: Graph<S, N, U, A>, frontier: seq<N>): seq<N> {
    if g.end in frontier then Without(frontier, g.end) else frontier
  }

  function Without<N(==)>(ns: seq<N>, x: N): seq<N> {
    if ns == [] then [] else (if ns[0] == x then [] else [ns[0]]) + Without(ns[1..], x)
  }

  /** One call of `execute` with `left` iterations to go. */
  function Run<S, N(==), U, A>(
      g: Graph<S, N, U, A>, s: S, frontier: seq<N>, resume: Option<(N, A)>, left: nat, order: seq<N>)
    : Result<S, N>
    decreases left
  {
    if frontier == [] then Halted(s, Drained, order)
    else if left == 0 then Halted(s, Exhausted, order)
    else
      var order' := order + Attempted(g, frontier);
      match Sweep(g, s, s, frontier, resume)
      case Held(s', n) => Paused(s', n, order')
      case Moved(s', nx) =>
        if g.end in frontier || g.end in nx then Halted(s', AtEnd, order')
        else Run(g, s', Dedupe(nx), None, left - 1, order')
  }

  /** `execute(inputs)` or `execute(Command(resume=...))`, after the nodes in `history`. */
  function Call<S, N(==), U, A>(g: Graph<S, N, U, A>, s: S, resume: Option<(N, A)>, history: seq<N>): Result<S, N> {
    Run(g, s, if resume.Some? then [resume.value.0] else g.start, resume, g.cap, history)
  }

  /** First half of an iteration: run every node of the frontier against the same state. */
  method AttemptAll<S, N(==), U, A>(g: Graph<S, N, U, A>, s: S, nodes: seq<N>, resume: Option<(N, A)>)
    returns (attempts: seq<Attempt<U, N>>)
    ensures |attempts| == |nodes|
    ensures forall i | 0 <= i < |nodes| :: nodes[i] != g.end ==> attempts[i] == AttemptNode(g, s, nodes[i], resume)
  {
    attempts := [];
    for j := 0 to |nodes|
      invariant |attempts| == j
      invariant forall i | 0 <= i < j :: nodes[i] != g.end ==> attempts[i] == AttemptNode(g, s, nodes[i], resume)
    {
      attempts := attempts + [if nodes[j] == g.end then Crash else AttemptNode(g, s, nodes[j], resume)];
    }
  }

  /** Second half of an iteration: merge results, collect successors, stop at an interrupt. */
  method Settle<S, N(==), U, A>(
      g: Graph<S, N, U, A>, s: S, nodes: seq<N>, attempts: seq<Attempt<U, N>>, ghost resume: Option<(N, A)>)
    returns (w: Swept<S, N>)
    requires |attempts| == |nodes|
    requires forall i | 0 <= i < |nodes| :: nodes[i] != g.end ==> attempts[i] == AttemptNode(g, s, nodes[i], resume)
    ensures w == Sweep(g, s, s, nodes, resume)
  {
    var state, next := s, [];
    for j := 0 to |nodes|
      invariant Sweep(g, s, s, nodes, resume) == Prepend(next, Sweep(g, s, state, nodes[j..], resume))
    {
      assert nodes[j..][1..] == nodes[j + 1..];
      if nodes[j] != g.end {
        match attempts[j]
        case Ask => return Held(state, nodes[j]);
        case Crash =>
        case Done(u, goto) =>
          state := g.commit(state, nodes[j], u);
          var nx := Successors(g, nodes[j], state, goto);
          PrependTwice(next, nx, Sweep(g, s, state, nodes[j + 1..], resume));
          next := next + nx;
      }
    }
    w := Moved(state, next);
  }

  method Execute<S, N(==), U, A>(g: Graph<S, N, U, A>, s: S, resume: Option<(N, A)>, history: seq<N>)
    returns (r: Result<S, N>)
    ensures r == Call(g, s, resume, history)
  {
    var current := if resume.Some? then [resume.value.0] else g.start;
    var state, order, iterations, pending := s, history, 0, resume;
    ghost var expected := Call(g, s, resume, history);
    while current != [] && iterations < g.cap
      invariant iterations <= g.cap
      invariant Run(g, state, current, pending, g.cap - iterations, order) == expected
      decreases g.cap - iterations
    {
      var attempts := AttemptAll(g, state, current, pending);
      var w := Settle(g, state, current, attempts, pending);
      order, pending, iterations := order + Attempted(g, current), None, iterations + 1;
      if w.Held? {
        return Paused(w.state, w.at, order);
      }
      state := w.state;
      if g.end in current || g.end in w.next {
        return Halted(state, AtEnd, order);
      }
      current := Dedupe(w.next);
    }
    r := Halted(state, if current == [] then Drained else Exhausted, order);
  }

  lemma PrependTwice<S, N>(a: seq<N>, b: seq<N>, w: Swept<S, N>)
    ensures Prepend(a, Prepend(b, w)) == Prepend(a + b, w)
  {
    if w.Moved? {
      assert a + (b + w.next) == a + b + w.next;
    }
  }
}
