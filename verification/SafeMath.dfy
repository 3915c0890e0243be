/** The whitelisted expression evaluator, and the smaller one it extends.
  *
  * Arithmetic itself is a parameter: nothing below depends on what an operator or a function computes.
  */
module SafeMath {
  import opened Prelude

  datatype BinOp = Add | Sub | Mult | Div | FloorDiv | Mod | Pow | OtherBinOp

  datatype UnaryOp = USub | UAdd | OtherUnaryOp

  /** The parsed expression; `Opaque` is any node the evaluators have no case for. */
  datatype Expr<V> =
    | Number(value: V)
    | NonNumeric
    | Name(id: string)
    | Binary(op: BinOp, left: Expr<V>, right: Expr<V>)
    | Unary(uop: UnaryOp, operand: Expr<V>)
    | Call(fn: string, args: seq<Expr<V>>, keywords: bool)
    | Opaque

  /** Exceptions an operator or a whitelisted function may raise. */
  datatype Exception = ValueError | ZeroDivision | Arithmetic | TypeError | Unforeseen

  datatype Error =
    | NameNotAllowed(id: string)
    | FunctionNotAllowed(fn: string)
    | Unsupported
    | Raised(exception: Exception)

  datatype Result<+T> = Ok(value: T) | Err(error: Error)

  /** What an operator or a whitelisted function does with its operands. */
  datatype Native<+V> = Returns(value: V) | Raises(exception: Exception)

  function Lift<V>(n: Native<V>): Result<V> {
    match n
    case Returns(v) => Ok(v)
    case Raises(x) => Err(Raised(x))
  }

  datatype Arith<!V> = Arith(binary: (BinOp, V, V) -> Native<V>, unary: (UnaryOp, V) -> Native<V>)

  datatype Whitelist<!V> = Whitelist(functions: map<string, seq<V> -> Native<V>>, names: map<string, V>)

  predicate KnownBinary(op: BinOp) { !op.OtherBinOp? }

  predicate KnownUnary(op: UnaryOp) { !op.OtherUnaryOp? }

  function Eval<V>(m: Arith<V>, w: Whitelist<V>, e: Expr<V>): Result<V>
    decreases e, 1
  {
    match e
    case Number(v) => Ok(v)
    case Name(id) => if id in w.names then Ok(w.names[id]) else Err(NameNotAllowed(id))
    case Binary(op, l, r) =>
      if !KnownBinary(op) then Err(Unsupported)
      else
        var x := Eval(m, w, l);
        if x.Err? then x
        else
          var y := Eval(m, w, r);
          if y.Err? then y else Lift(m.binary(op, x.value, y.value))
    case Unary(op, o) =>
      if !KnownUnary(op) then Err(Unsupported)
      else
        var x := Eval(m, w, o);
        if x.Err? then x else Lift(m.unary(op, x.value))
    case Call(fn, args, keywords) =>
      if keywords then Err(Unsupported)
      else if fn !in w.functions then Err(FunctionNotAllowed(fn))
      else
        var xs := EvalArgs(m, w, args);
        if xs.Err? then Err(xs.error) else Lift(w.functions[fn](xs.value))
    case NonNumeric => Err(Unsupported)
    case Opaque => Err(Unsupported)
  }

  /** Arguments from left to right; the first error wins. */
  function EvalArgs<V>(m: Arith<V>, w: Whitelist<V>, args: seq<Expr<V>>): Result<seq<V>>
    decreases args, 0
  {
    if args == [] then Ok([])
    else
      var x := Eval(m, w, args[0]);
      if x.Err? then Err(x.error)
      else
        var xs := EvalArgs(m, w, args[1..]);
        if xs.Err? then xs else Ok([x.value] + xs.value)
  }

  /** The smaller evaluator: no names, no calls. */
  function SmallEval<V>(m: Arith<V>, e: Expr<V>): Result<V> {
    match e
    case Number(v) => Ok(v)
    case Binary(op, l, r) =>
      if !KnownBinary(op) then Err(Unsupported)
      else
        var x := SmallEval(m, l);
        if x.Err? then x
        else
          var y := SmallEval(m, r);
          if y.Err? then y else Lift(m.binary(op, x.value, y.value))
    case Unary(op, o) =>
      if !KnownUnary(op) then Err(Unsupported)
      else
        var x := SmallEval(m, o);
        if x.Err? then x else Lift(m.unary(op, x.value))
    case _ => Err(Unsupported)
  }

  // ----- the extension is conservative -----

  predicate Plain<V>(e: Expr<V>) {
    match e
    case Binary(_, l, r) => Plain(l) && Plain(r)
    case Unary(_, o) => Plain(o)
    case Name(_) => false
    case Call(_, _, _) => false
    case _ => true
  }

  /** Without names and calls the whitelists are irrelevant: same value, same error. */
  lemma {:induction false} Conservative<V>(m: Arith<V>, w: Whitelist<V>, e: Expr<V>)
    requires Plain(e)
    ensures Eval(m, w, e) == SmallEval(m, e)
  {
    match e
    case Binary(_, l, r) => Conservative(m, w, l); Conservative(m, w, r);
    case Unary(_, o) => Conservative(m, w, o);
    case _ =>
  }

  predicate Refused(e: Error) { !e.Raised? }

  /** Equal up to the wording of the evaluator's own ValueError. */
  ghost predicate SameUpToWording<V>(x: Result<V>, y: Result<V>) {
    x == y || (x.Err? && y.Err? && Refused(x.error) && Refused(y.error))
  }

  /** With both whitelists empty the two evaluators agree on every expression, names and calls included. */
  lemma {:induction false} EmptyWhitelistIsSmall<V>(m: Arith<V>, e: Expr<V>)
    ensures SameUpToWording(Eval(m, Whitelist(map[], map[]), e), SmallEval(m, e))
  {
    match e
    case Binary(_, l, r) => EmptyWhitelistIsSmall(m, l); EmptyWhitelistIsSmall(m, r);
    case Unary(_, o) => EmptyWhitelistIsSmall(m, o);
    case _ =>
  }

  // ----- enlarging the whitelists -----

  ghost predicate Extends<V>(w: Whitelist<V>, w': Whitelist<V>) {
    && (forall f | f in w.functions :: f in w'.functions && w'.functions[f] == w.functions[f])
    && (forall n | n in w.names :: n in w'.names && w'.names[n] == w.names[n])
  }

  predicate NotAllowed(e: Error) { e.NameNotAllowed? || e.FunctionNotAllowed? }

  ghost predicate Settled<T>(x: Result<T>) { x.Ok? || !NotAllowed(x.error) }

  /** A larger whitelist changes nothing but refusals: values stay, and so does every other error. */
  lemma {:induction false} WhitelistMonotone<V>(m: Arith<V>, w: Whitelist<V>, w': Whitelist<V>, e: Expr<V>)
    requires Extends(w, w') && Settled(Eval(m, w, e))
    ensures Eval(m, w', e) == Eval(m, w, e)
    decreases e, 1
  {
    match e
    case Binary(op, l, r) =>
      if KnownBinary(op) {
        WhitelistMonotone(m, w, w', l);
        if Eval(m, w, l).Ok? { WhitelistMonotone(m, w, w', r); }
      }
    case Unary(op, o) => if KnownUnary(op) { WhitelistMonotone(m, w, w', o); }
    case Call(fn, args, keywords) =>
      if !keywords && fn in w.functions { ArgsMonotone(m, w, w', args); }
    case _ =>
  }

  lemma {:induction false} ArgsMonotone<V>(m: Arith<V>, w: Whitelist<V>, w': Whitelist<V>, args: seq<Expr<V>>)
    requires Extends(w, w') && Settled(EvalArgs(m, w, args))
    ensures EvalArgs(m, w', args) == EvalArgs(m, w, args)
    decreases args, 0
  {
    if args != [] {
      WhitelistMonotone(m, w, w', args[0]);
      if Eval(m, w, args[0]).Ok? { ArgsMonotone(m, w, w', args[1..]); }
    }
  }

  /** In particular, a successful result survives every enlargement. */
  lemma SuccessSurvives<V>(m: Arith<V>, w: Whitelist<V>, w': Whitelist<V>, e: Expr<V>)
    requires Extends(w, w') && Eval(m, w, e).Ok?
    ensures Eval(m, w', e) == Eval(m, w, e)
  {
    WhitelistMonotone(m, w, w', e);
  }

  /** Whatever the smaller evaluator computes, the larger one computes under every whitelist. */
  lemma {:induction false} SmallSuccessSurvives<V>(m: Arith<V>, w: Whitelist<V>, e: Expr<V>)
    requires SmallEval(m, e).Ok?
    ensures Eval(m, w, e) == SmallEval(m, e)
  {
    EmptyWhitelistIsSmall(m, e);
    SuccessSurvives(m, Whitelist(map[], map[]), w, e);
  }

  // ----- names are constants -----

  /** Replace every whitelisted name by the constant it stands for. */
  function Subst<V>(names: map<string, V>, e: Expr<V>): Expr<V>
    decreases e, 1
  {
    match e
    case Name(id) => if id in names then Number(names[id]) else e
    case Binary(op, l, r) => Binary(op, Subst(names, l), Subst(names, r))
    case Unary(op, o) => Unary(op, Subst(names, o))
    case Call(fn, args, keywords) => Call(fn, SubstArgs(names, args), keywords)
    case _ => e
  }

  function SubstArgs<V>(names: map<string, V>, args: seq<Expr<V>>): seq<Expr<V>>
    decreases args, 0
  {
    if args == [] then [] else [Subst(names, args[0])] + SubstArgs(names, args[1..])
  }

  /** Substituting the constants first and evaluating with no names at all is the same, errors included. */
  lemma {:induction false} SubstPreserves<V>(m: Arith<V>, w: Whitelist<V>, e: Expr<V>)
    ensures Eval(m, w.(names := map[]), Subst(w.names, e)) == Eval(m, w, e)
    decreases e, 1
  {
    match e
    case Binary(_, l, r) => SubstPreserves(m, w, l); SubstPreserves(m, w, r);
    case Unary(_, o) => SubstPreserves(m, w, o);
    case Call(_, args, _) => SubstArgsPreserves(m, w, args);
    case _ =>
  }

  lemma {:induction false} SubstArgsPreserves<V>(m: Arith<V>, w: Whitelist<V>, args: seq<Expr<V>>)
    ensures EvalArgs(m, w.(names := map[]), SubstArgs(w.names, args)) == EvalArgs(m, w, args)
    decreases args, 0
  {
    if args != [] {
      SubstPreserves(m, w, args[0]);
      SubstArgsPreserves(m, w, args[1..]);
      var rest := SubstArgs(w.names, args[1..]);
      assert ([Subst(w.names, args[0])] + rest)[1..] == rest;
    }
  }

  // ----- what is called -----

  /** The functions an evaluation calls, in order. */
  function Trace<V>(m: Arith<V>, w: Whitelist<V>, e: Expr<V>): seq<string>
    decreases e, 1
  {
    match e
    case Binary(op, l, r) =>
      if !KnownBinary(op) then []
      else Trace(m, w, l) + (if Eval(m, w, l).Ok? then Trace(m, w, r) else [])
    case Unary(op, o) => if KnownUnary(op) then Trace(m, w, o) else []
    case Call(fn, args, keywords) =>
      if keywords || fn !in w.functions then []
      else TraceArgs(m, w, args) + (if EvalArgs(m, w, args).Ok? then [fn] else [])
    case _ => []
  }

  function TraceArgs<V>(m: Arith<V>, w: Whitelist<V>, args: seq<Expr<V>>): seq<string>
    decreases args, 0
  {
    if args == [] then []
    else Trace(m, w, args[0]) + (if Eval(m, w, args[0]).Ok? then TraceArgs(m, w, args[1..]) else [])
  }

  /** The function names written in an expression, innermost and leftmost first. */
  function Calls<V>(e: Expr<V>): seq<string>
    decreases e, 1
  {
    match e
    case Binary(_, l, r) => Calls(l) + Calls(r)
    case Unary(_, o) => Calls(o)
    case Call(fn, args, _) => CallsIn(args) + [fn]
    case _ => []
  }

  function CallsIn<V>(args: seq<Expr<V>>): seq<string>
    decreases args, 0
  {
    if args == [] then [] else Calls(args[0]) + CallsIn(args[1..])
  }

  ghost predicate AllIn(s: seq<string>, keys: set<string>) { forall f | f in s :: f in keys }

  /** Only whitelisted functions are ever called; a run calls a prefix of the calls written, all of them on success. */
  lemma {:induction false} OnlyWhitelistedCalls<V>(m: Arith<V>, w: Whitelist<V>, e: Expr<V>)
    ensures AllIn(Trace(m, w, e), w.functions.Keys)
    ensures Trace(m, w, e) <= Calls(e)
    ensures Eval(m, w, e).Ok? ==> Trace(m, w, e) == Calls(e)
    decreases e, 1
  {
    match e
    case Binary(_, l, r) => OnlyWhitelistedCalls(m, w, l); OnlyWhitelistedCalls(m, w, r);
    case Unary(_, o) => OnlyWhitelistedCalls(m, w, o);
    case Call(_, args, _) => OnlyWhitelistedArgs(m, w, args);
    case _ =>
  }

  lemma {:induction false} OnlyWhitelistedArgs<V>(m: Arith<V>, w: Whitelist<V>, args: seq<Expr<V>>)
    ensures AllIn(TraceArgs(m, w, args), w.functions.Keys)
    ensures TraceArgs(m, w, args) <= CallsIn(args)
    ensures EvalArgs(m, w, args).Ok? ==> TraceArgs(m, w, args) == CallsIn(args)
    decreases args, 0
  {
    if args != [] {
      OnlyWhitelistedCalls(m, w, args[0]);
      OnlyWhitelistedArgs(m, w, args[1..]);
    }
  }

  /** Whatever is refused is refused before anything is evaluated. */
  lemma RefusalsCallNothing<V>(
      m: Arith<V>, w: Whitelist<V>, l: Expr<V>, r: Expr<V>, f: string, args: seq<Expr<V>>, keywords: bool)
    requires keywords || f !in w.functions
    ensures Trace(m, w, Binary(OtherBinOp, l, r)) == [] && Eval(m, w, Binary(OtherBinOp, l, r)) == Err(Unsupported)
    ensures Trace(m, w, Unary(OtherUnaryOp, l)) == [] && Eval(m, w, Unary(OtherUnaryOp, l)) == Err(Unsupported)
    ensures Trace(m, w, Call(f, args, keywords)) == []
    ensures Eval(m, w, Call(f, args, keywords)) == Err(if keywords then Unsupported else FunctionNotAllowed(f))
  {
  }

  // ----- which errors the calculator tool contains -----

  /** `execute_calculation` turns these into a message; the others escape to the caller. */
  predicate Contained(e: Error) {
    match e
    case Raised(x) => x == ValueError || x == ZeroDivision || x == Arithmetic
    case _ => true
  }

  datatype Reply<+V> = Answer(value: V) | Message | Escapes

  function ExecuteCalculation<V>(m: Arith<V>, w: Whitelist<V>, e: Expr<V>): Reply<V> {
    match Eval(m, w, e)
    case Ok(v) => Answer(v)
    case Err(x) => if Contained(x) then Message else Escapes
  }

  ghost predicate ContainedNative<V>(n: Native<V>) { n.Raises? ==> Contained(Raised(n.exception)) }

  /** No operator that the evaluator knows raises anything else than the contained exceptions. */
  ghost predicate OperatorsBehave<V(!new)>(m: Arith<V>) {
    && (forall op, x, y :: op != OtherBinOp ==> ContainedNative(m.binary(op, x, y)))
    && (forall op, x :: op != OtherUnaryOp ==> ContainedNative(m.unary(op, x)))
  }

  /** Neither does any whitelisted function. */
  ghost predicate WellBehaved<V(!new)>(m: Arith<V>, w: Whitelist<V>) {
    && OperatorsBehave(m)
    && (forall f, xs | f in w.functions :: ContainedNative(w.functions[f](xs)))
  }

  /** The evaluator's own errors are all contained: what escapes was raised by an operator or a function. */
  lemma {:induction false} EvalContained<V(!new)>(m: Arith<V>, w: Whitelist<V>, e: Expr<V>)
    requires WellBehaved(m, w)
    ensures Eval(m, w, e).Err? ==> Contained(Eval(m, w, e).error)
    decreases e, 1
  {
    match e
    case Binary(op, l, r) =>
      EvalContained(m, w, l);
      EvalContained(m, w, r);
      var x, y := Eval(m, w, l), Eval(m, w, r);
      if KnownBinary(op) && x.Ok? && y.Ok? { assert ContainedNative(m.binary(op, x.value, y.value)); }
    case Unary(op, o) =>
      EvalContained(m, w, o);
      var x := Eval(m, w, o);
      if KnownUnary(op) && x.Ok? { assert ContainedNative(m.unary(op, x.value)); }
    case Call(fn, args, _) =>
      ArgsContained(m, w, args);
      var xs := EvalArgs(m, w, args);
      if fn in w.functions && xs.Ok? { assert ContainedNative(w.functions[fn](xs.value)); }
    case _ =>
  }

  lemma {:induction false} ArgsContained<V(!new)>(m: Arith<V>, w: Whitelist<V>, args: seq<Expr<V>>)
    requires WellBehaved(m, w)
    ensures EvalArgs(m, w, args).Err? ==> Contained(EvalArgs(m, w, args).error)
    decreases args, 0
  {
    if args != [] {
      EvalContained(m, w, args[0]);
      ArgsContained(m, w, args[1..]);
    }
  }

  function Numbers<V>(xs: seq<V>): seq<Expr<V>> {
    if xs == [] then [] else [Number(xs[0])] + Numbers(xs[1..])
  }

  lemma {:induction false} NumbersEvaluate<V>(m: Arith<V>, w: Whitelist<V>, xs: seq<V>)
    ensures EvalArgs(m, w, Numbers(xs)) == Ok(xs)
  {
    if xs != [] {
      NumbersEvaluate(m, w, xs[1..]);
      var rest := Numbers(xs[1..]);
      assert ([Number(xs[0])] + rest)[1..] == rest;
      assert Eval(m, w, Number(xs[0])) == Ok(xs[0]);
      assert [xs[0]] + xs[1..] == xs;
    }
  }

  // ----- what one operation answers -----

  /** The tool's reply to what an operator or a function did: its value, a message for the three kinds of arithmetic
    * exceptions, an escape for all others.
    */
  ghost predicate RepliesTo<V>(reply: Reply<V>, n: Native<V>) {
    match n
    case Returns(v) => reply == Answer(v)
    case Raises(ValueError) => reply == Message
    case Raises(ZeroDivision) => reply == Message
    case Raises(Arithmetic) => reply == Message
    case Raises(TypeError) => reply == Escapes
    case Raises(Unforeseen) => reply == Escapes
  }

  /** MAIN RESULT: a call of a whitelisted function replies what the function does with the values of its arguments. */
  lemma CallReplies<V>(m: Arith<V>, w: Whitelist<V>, f: string, args: seq<Expr<V>>)
    requires f in w.functions && EvalArgs(m, w, args).Ok?
    ensures RepliesTo(ExecuteCalculation(m, w, Call(f, args, false)), w.functions[f](EvalArgs(m, w, args).value))
  {
  }

  lemma CallOnNumbers<V>(m: Arith<V>, w: Whitelist<V>, f: string, xs: seq<V>)
    requires f in w.functions
    ensures RepliesTo(ExecuteCalculation(m, w, Call(f, Numbers(xs), false)), w.functions[f](xs))
  {
    NumbersEvaluate(m, w, xs);
    CallReplies(m, w, f, Numbers(xs));
  }

  /** Each of the seven binary operators replies what it does with its operands in order; no other one is known. */
  lemma BinaryReplies<V>(m: Arith<V>, w: Whitelist<V>, op: BinOp, x: V, y: V)
    ensures var reply := ExecuteCalculation(m, w, Binary(op, Number(x), Number(y)));
            if op == OtherBinOp then reply == Message else RepliesTo(reply, m.binary(op, x, y))
  {
    assert Eval(m, w, Number(x)) == Ok(x) && Eval(m, w, Number(y)) == Ok(y);
  }

  /** So do the two signs. */
  lemma UnaryReplies<V>(m: Arith<V>, w: Whitelist<V>, op: UnaryOp, x: V)
    ensures var reply := ExecuteCalculation(m, w, Unary(op, Number(x)));
            if op == OtherUnaryOp then reply == Message else RepliesTo(reply, m.unary(op, x))
  {
    assert Eval(m, w, Number(x)) == Ok(x);
  }

  /** Numbers stand for themselves, names for their constants; whatever else is refused gets a message. */
  lemma LeavesReply<V>(m: Arith<V>, w: Whitelist<V>, v: V, id: string, f: string, args: seq<Expr<V>>)
    ensures ExecuteCalculation(m, w, Number(v)) == Answer(v)
    ensures ExecuteCalculation(m, w, Name(id)) == if id in w.names then Answer(w.names[id]) else Message
    ensures ExecuteCalculation(m, w, NonNumeric) == ExecuteCalculation(m, w, Opaque) == Message
    ensures f !in w.functions ==> ExecuteCalculation(m, w, Call(f, args, false)) == Message
    ensures ExecuteCalculation(m, w, Call(f, args, true)) == Message
  {
  }

  // ----- values stand for expressions -----

  /** An expression with one hole, which may be anywhere. */
  datatype Context<V> =
    | Hole
    | LeftOf(op: BinOp, context: Context<V>, right: Expr<V>)
    | RightOf(op: BinOp, left: Expr<V>, context: Context<V>)
    | Under(uop: UnaryOp, context: Context<V>)
    | Among(fn: string, before: seq<Expr<V>>, context: Context<V>, after: seq<Expr<V>>, keywords: bool)

  ghost function Plug<V>(c: Context<V>, e: Expr<V>): Expr<V> {
    match c
    case Hole => e
    case LeftOf(op, c', r) => Binary(op, Plug(c', e), r)
    case RightOf(op, l, c') => Binary(op, l, Plug(c', e))
    case Under(uop, c') => Unary(uop, Plug(c', e))
    case Among(fn, before, c', after, keywords) => Call(fn, before + [Plug(c', e)] + after, keywords)
  }

  lemma {:induction false} ArgsCongruent<V>(
      m: Arith<V>, w: Whitelist<V>, before: seq<Expr<V>>, e: Expr<V>, e': Expr<V>, after: seq<Expr<V>>)
    requires Eval(m, w, e) == Eval(m, w, e')
    ensures EvalArgs(m, w, before + [e] + after) == EvalArgs(m, w, before + [e'] + after)
  {
    if before == [] {
      assert ([] + [e] + after)[1..] == after && ([] + [e'] + after)[1..] == after;
    } else {
      ArgsCongruent(m, w, before[1..], e, e', after);
      assert (before + [e] + after)[1..] == before[1..] + [e] + after;
      assert (before + [e'] + after)[1..] == before[1..] + [e'] + after;
    }
  }

  lemma {:induction false} EvalCongruent<V>(m: Arith<V>, w: Whitelist<V>, c: Context<V>, e: Expr<V>, e': Expr<V>)
    requires Eval(m, w, e) == Eval(m, w, e')
    ensures Eval(m, w, Plug(c, e)) == Eval(m, w, Plug(c, e'))
  {
    match c
    case Hole =>
    case LeftOf(_, c', _) => EvalCongruent(m, w, c', e, e');
    case RightOf(_, _, c') => EvalCongruent(m, w, c', e, e');
    case Under(_, c') => EvalCongruent(m, w, c', e, e');
    case Among(_, before, c', after, _) =>
      EvalCongruent(m, w, c', e, e');
      ArgsCongruent(m, w, before, Plug(c', e), Plug(c', e'), after);
  }

  /** MAIN RESULT: a subexpression that has a value may be replaced by that value, wherever it stands. With the replies
    * of single operations and the two lemmas on errors this determines every reply.
    */
  lemma ValueStandsForExpression<V>(m: Arith<V>, w: Whitelist<V>, c: Context<V>, e: Expr<V>, v: V)
    requires ExecuteCalculation(m, w, e) == Answer(v)
    ensures ExecuteCalculation(m, w, Plug(c, e)) == ExecuteCalculation(m, w, Plug(c, Number(v)))
  {
    assert Eval(m, w, e) == Ok(v);
    EvalCongruent(m, w, c, e, Number(v));
  }

  /** The first error from the left is the error of the whole: operands of a known operator... */
  lemma FirstErrorWins<V>(m: Arith<V>, w: Whitelist<V>, op: BinOp, uop: UnaryOp, l: Expr<V>, r: Expr<V>)
    requires op != OtherBinOp && uop != OtherUnaryOp
    ensures Eval(m, w, l).Err? ==> Eval(m, w, Binary(op, l, r)) == Eval(m, w, l) == Eval(m, w, Unary(uop, l))
    ensures Eval(m, w, l).Ok? && Eval(m, w, r).Err? ==> Eval(m, w, Binary(op, l, r)) == Eval(m, w, r)
  {
  }

  /** ... and arguments of a whitelisted function, which is then not called. */
  lemma {:induction false} FirstBadArgumentWins<V>(
      m: Arith<V>, w: Whitelist<V>, f: string, before: seq<Expr<V>>, e: Expr<V>, after: seq<Expr<V>>)
    requires f in w.functions && Eval(m, w, e).Err?
    requires forall i | 0 <= i < |before| :: Eval(m, w, before[i]).Ok?
    ensures EvalArgs(m, w, before + [e] + after).Err?
    ensures Eval(m, w, Call(f, before + [e] + after, false)) == Eval(m, w, e)
  {
    var args := before + [e] + after;
    if before == [] {
      assert args[0] == e;
    } else {
      FirstBadArgumentWins(m, w, f, before[1..], e, after);
      assert args[0] == before[0] && args[1..] == before[1..] + [e] + after;
    }
  }

  // ----- when nothing escapes -----

  /** A call escapes exactly when the function raises, on the values of its arguments, what is not contained. */
  lemma CallEscapesIff<V>(m: Arith<V>, w: Whitelist<V>, f: string, args: seq<Expr<V>>)
    requires f in w.functions && EvalArgs(m, w, args).Ok?
    ensures ExecuteCalculation(m, w, Call(f, args, false)) == Escapes
            <==> !ContainedNative(w.functions[f](EvalArgs(m, w, args).value))
  {
    CallReplies(m, w, f, args);
  }

  /** An operation on numbers escapes exactly when its operator raises on them what is not contained. */
  lemma BinaryEscapesIff<V>(m: Arith<V>, w: Whitelist<V>, op: BinOp, x: V, y: V)
    requires op != OtherBinOp
    ensures var e: Expr<V> := Binary(op, Number(x), Number(y));
            Fits(e) && (ExecuteCalculation(m, w, e) == Escapes <==> !ContainedNative(m.binary(op, x, y)))
  {
    BinaryReplies(m, w, op, x, y);
  }

  lemma UnaryEscapesIff<V>(m: Arith<V>, w: Whitelist<V>, op: UnaryOp, x: V)
    requires op != OtherUnaryOp
    ensures var e: Expr<V> := Unary(op, Number(x));
            Fits(e) && (ExecuteCalculation(m, w, e) == Escapes <==> !ContainedNative(m.unary(op, x)))
  {
    UnaryReplies(m, w, op, x);
  }

  /** MAIN RESULT: the calculator tool contains every error of every expression if and only if no known operator and no
    * whitelisted function raises, on any operands, an exception outside the contained ones.
    */
  lemma NothingEscapesIff<V(!new)>(m: Arith<V>, w: Whitelist<V>)
    ensures (forall e: Expr<V> :: ExecuteCalculation(m, w, e) != Escapes) <==> WellBehaved(m, w)
  {
    if WellBehaved(m, w) {
      forall e: Expr<V> ensures ExecuteCalculation(m, w, e) != Escapes { EvalContained(m, w, e); }
    }
    if forall e: Expr<V> :: ExecuteCalculation(m, w, e) != Escapes {
      forall op, x, y | op != OtherBinOp ensures ContainedNative(m.binary(op, x, y)) {
        BinaryEscapesIff(m, w, op, x, y);
      }
      forall op, x | op != OtherUnaryOp ensures ContainedNative(m.unary(op, x)) {
        UnaryEscapesIff(m, w, op, x);
      }
      forall f, xs | f in w.functions ensures ContainedNative(w.functions[f](xs)) {
        NumbersEvaluate(m, w, xs);
        CallEscapesIff(m, w, f, Numbers(xs));
      }
    }
  }

  // ----- the table of the tool -----

  /** How many numbers each function of the tool's table can take at all; `sum` wants an iterable and takes none. */
  predicate Takes(f: string, n: nat) {
    if f == "round" || f == "log" then 1 <= n <= 2
    else if f == "min" || f == "max" then 2 <= n
    else if f == "pow" then 2 <= n <= 3
    else if f == "sum" then false
    else n == 1
  }

  /** The same table by the number of arguments. */
  lemma TakesIff(f: string, n: nat)
    ensures Takes(f, n) <==>
              || (n == 1 && f !in ["min", "max", "pow", "sum"])
              || (n == 2 && f in ["round", "log", "min", "max", "pow"])
              || (n == 3 && f in ["min", "max", "pow"])
              || (n > 3 && f in ["min", "max"])
  {
  }

  /** Python's calling convention: a function given a number of arguments it cannot take raises TypeError. */
  ghost predicate HonoursArity<V(!new)>(w: Whitelist<V>) {
    forall f, xs: seq<V> | f in w.functions && !Takes(f, |xs|) :: w.functions[f](xs) == Raises(TypeError)
  }

  /** Whatever expressions its arguments are, a call with a number of arguments the function cannot take escapes. */
  lemma {:induction false} WrongArityEscapes<V(!new)>(m: Arith<V>, w: Whitelist<V>, f: string, args: seq<Expr<V>>)
    requires HonoursArity(w) && f in w.functions && EvalArgs(m, w, args).Ok? && !Takes(f, |args|)
    ensures ExecuteCalculation(m, w, Call(f, args, false)) == Escapes
  {
    hide Takes;
    ArgsKeepLength(m, w, args);
    CallEscapesIff(m, w, f, args);
  }

  lemma {:induction false} ArgsKeepLength<V>(m: Arith<V>, w: Whitelist<V>, args: seq<Expr<V>>)
    requires EvalArgs(m, w, args).Ok?
    ensures |EvalArgs(m, w, args).value| == |args|
  {
    if args != [] { ArgsKeepLength(m, w, args[1..]); }
  }

  /** MAIN RESULT, for the tool's own functions: some expression escapes if and only if the tool is given any function
    * at all or some operator raises, on some operands, what is not contained.
    */
  lemma ToolLeaksIff<V(!new)>(m: Arith<V>, w: Whitelist<V>)
    requires HonoursArity(w)
    ensures (exists e: Expr<V> :: ExecuteCalculation(m, w, e) == Escapes)
            <==> w.functions != map[] || !OperatorsBehave(m)
  {
    NothingEscapesIff(m, w);
    if w.functions != map[] {
      var f :| f in w.functions;
      var none: seq<Expr<V>> := [];
      assert EvalArgs(m, w, none) == Ok([]);
      assert !Takes(f, 0);
      WrongArityEscapes(m, w, f, none);
    }
  }

  /** The source's own operators do: a negative number to a fractional power is complex, and the remainder of a complex
    * number raises TypeError, so `((-1) ** 0.5) % 2` escapes from a tool without any function.
    */
  lemma ComplexRemainderEscapes<V>(m: Arith<V>, x: V, y: V, z: V, complex: V)
    requires m.binary(Pow, x, y) == Returns(complex) && m.binary(Mod, complex, z) == Raises(TypeError)
    ensures ExecuteCalculation(m, Whitelist(map[], map[]),
                               Binary(Mod, Binary(Pow, Number(x), Number(y)), Number(z))) == Escapes
  {
    var w: Whitelist<V> := Whitelist(map[], map[]);
    assert Eval(m, w, Number(x)) == Ok(x) && Eval(m, w, Number(y)) == Ok(y) && Eval(m, w, Number(z)) == Ok(z);
    assert Eval(m, w, Binary(Pow, Number(x), Number(y))) == Ok(complex);
  }

  // ----- a single expression -----

  /** Every written call has a number of arguments its function can take; nothing is evaluated to see that. */
  predicate Fits<V>(e: Expr<V>)
    decreases e, 1
  {
    match e
    case Binary(_, l, r) => Fits(l) && Fits(r)
    case Unary(_, o) => Fits(o)
    case Call(fn, args, _) => Takes(fn, |args|) && AllFit(args)
    case _ => true
  }

  predicate AllFit<V>(args: seq<Expr<V>>)
    decreases args, 0
  {
    args == [] || (Fits(args[0]) && AllFit(args[1..]))
  }

  /** No function raises, on a number of arguments it can take, what is not contained. */
  ghost predicate FunctionsBehave<V(!new)>(w: Whitelist<V>) {
    forall f, xs: seq<V> | f in w.functions && Takes(f, |xs|) :: ContainedNative(w.functions[f](xs))
  }

  lemma {:induction false} FittingContained<V(!new)>(m: Arith<V>, w: Whitelist<V>, e: Expr<V>)
    requires OperatorsBehave(m) && FunctionsBehave(w) && Fits(e)
    ensures Eval(m, w, e).Err? ==> Contained(Eval(m, w, e).error)
    decreases e, 1
  {
    hide Takes;
    match e
    case Binary(op, l, r) =>
      FittingContained(m, w, l);
      FittingContained(m, w, r);
      var x, y := Eval(m, w, l), Eval(m, w, r);
      if KnownBinary(op) && x.Ok? && y.Ok? { assert ContainedNative(m.binary(op, x.value, y.value)); }
    case Unary(op, o) =>
      FittingContained(m, w, o);
      var x := Eval(m, w, o);
      if KnownUnary(op) && x.Ok? { assert ContainedNative(m.unary(op, x.value)); }
    case Call(fn, args, _) =>
      FittingArgsContained(m, w, args);
      var xs := EvalArgs(m, w, args);
      if fn in w.functions && xs.Ok? {
        ArgsKeepLength(m, w, args);
        assert ContainedNative(w.functions[fn](xs.value));
      }
    case _ =>
  }

  lemma {:induction false} FittingArgsContained<V(!new)>(m: Arith<V>, w: Whitelist<V>, args: seq<Expr<V>>)
    requires OperatorsBehave(m) && FunctionsBehave(w) && AllFit(args)
    ensures EvalArgs(m, w, args).Err? ==> Contained(EvalArgs(m, w, args).error)
    decreases args, 0
  {
    if args != [] {
      FittingContained(m, w, args[0]);
      FittingArgsContained(m, w, args[1..]);
    }
  }

  lemma {:induction false} NumbersFit<V>(xs: seq<V>)
    ensures AllFit(Numbers(xs)) && |Numbers(xs)| == |xs|
  {
    if xs != [] {
      NumbersFit(xs[1..]);
      var rest := Numbers(xs[1..]);
      assert ([Number(xs[0])] + rest)[1..] == rest;
    }
  }

  /** MAIN RESULT, for what a caller can see before the call: nothing escapes from an expression whose calls fit, for
    * every such expression, if and only if the operators behave, and the functions do on numbers of arguments that fit.
    */
  lemma FittingIsContainedIff<V(!new)>(m: Arith<V>, w: Whitelist<V>)
    ensures (forall e: Expr<V> | Fits(e) :: ExecuteCalculation(m, w, e) != Escapes)
            <==> OperatorsBehave(m) && FunctionsBehave(w)
  {
    hide Takes;
    if OperatorsBehave(m) && FunctionsBehave(w) {
      forall e: Expr<V> | Fits(e) ensures ExecuteCalculation(m, w, e) != Escapes { FittingContained(m, w, e); }
    }
    if forall e: Expr<V> | Fits(e) :: ExecuteCalculation(m, w, e) != Escapes {
      forall op, x, y | op != OtherBinOp ensures ContainedNative(m.binary(op, x, y)) {
        BinaryEscapesIff(m, w, op, x, y);
      }
      forall op, x | op != OtherUnaryOp ensures ContainedNative(m.unary(op, x)) {
        UnaryEscapesIff(m, w, op, x);
      }
      forall f, xs: seq<V> | f in w.functions && Takes(f, |xs|) ensures ContainedNative(w.functions[f](xs)) {
        NumbersEvaluate(m, w, xs);
        NumbersFit(xs);
        CallEscapesIff(m, w, f, Numbers(xs));
      }
    }
  }
}
