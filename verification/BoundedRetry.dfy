/** The retry loop around the agents that must return a schema object: judge, recorder, sign-off, postmortem. */
module BoundedRetry {
  /** What one call of the agent does; `Unparsed` means that the model did not honour the schema. */
  datatype Attempt<+T> = Raised | Unparsed | Parsed(value: T)

  datatype Verdict<+T> = Emitted(value: T) | AllFailed | NoParse

  const ATTEMPTS := 3

  /** The first call from the i-th on that returns at all decides, parsed or not. */
  function FirstReturn<T>(ask: nat -> Attempt<T>, i: nat): Verdict<T>
    decreases ATTEMPTS - i
  {
    if i >= ATTEMPTS then AllFailed
    else
      match ask(i)
      case Raised => FirstReturn(ask, i + 1)
      case Unparsed => NoParse
      case Parsed(v) => Emitted(v)
  }

  /** The node around the agent returns an object; otherwise it raises. */
  predicate Delivers<T>(ask: nat -> Attempt<T>) { FirstReturn(ask, 0).Emitted? }

  /** Asks until a call returns at all, at most three times; `asked` counts the calls. */
  method Emit<T>(ask: nat -> Attempt<T>) returns (verdict: Verdict<T>, asked: nat)
    ensures verdict == FirstReturn(ask, 0)
    ensures 1 <= asked <= ATTEMPTS
    ensures forall i: nat | i < asked - 1 :: ask(i) == Raised
    ensures verdict == AllFailed <==> forall i: nat | i < ATTEMPTS :: ask(i) == Raised
    ensures verdict != AllFailed ==>
      ask(asked - 1) == if verdict.Emitted? then Parsed(verdict.value) else Unparsed
  {
    var attempt, final: Attempt<T> := 0, Raised;
    while attempt < ATTEMPTS && final == Raised
      invariant attempt <= ATTEMPTS
      invariant forall i: nat | i < attempt - 1 :: ask(i) == Raised
      invariant if attempt == 0 then final == Raised else final == ask(attempt - 1)
      invariant FirstReturn(ask, 0) == FirstReturn(ask, if final == Raised then attempt else attempt - 1)
      decreases ATTEMPTS - attempt
    {
      final := ask(attempt);
      attempt := attempt + 1;
    }
    asked := attempt;
    verdict := match final case Raised => AllFailed case Unparsed => NoParse case Parsed(v) => Emitted(v);
  }

  /** The node raises exactly when all three calls do, or the first that does not comes without a parse. */
  lemma DeliversIff<T>(ask: nat -> Attempt<T>)
    ensures Delivers(ask) <==>
      || ask(0).Parsed?
      || (ask(0).Raised? && ask(1).Parsed?)
      || (ask(0).Raised? && ask(1).Raised? && ask(2).Parsed?)
  {
    assert FirstReturn(ask, 3) == AllFailed;
    assert FirstReturn(ask, 1)
        == match ask(1) case Raised => FirstReturn(ask, 2) case Unparsed => NoParse case Parsed(v) => Emitted(v);
  }
}
