/** A checker wrapped with the predicate that gates it and the arguments it
    is called with. Every field is final, so the wrapper is a value; its
    getters are the datatype's destructors. */
module GlobalChecker {
  import opened Bson

  datatype Phase = BeforeWrite | AfterWrite

  /** The Checker plugin: its check, the phase it runs in and whether it
      supports a request. The type parameter stands for the exchange and its
      request context. */
  datatype Checker<!Req> = Checker(
    check: (Req, Document, BsonValue, BsonValue) -> bool,
    phase: Req -> Phase,
    supportsRequests: Req -> bool)

  /** The wrapper; gate is the RequestContextPredicate the checker is applied under. */
  datatype GlobalChecker<!Req> = GlobalChecker(
    checker: Checker<Req>,
    gate: Req -> bool,
    skipNotSupported: bool,
    args: BsonValue,
    confArgs: BsonValue)

  /** resolve: the stored predicate decides whether the checker applies. The
      source is this one-line delegation, so the contract is the delegation;
      the lemmas below state what follows from it. */
  function Resolve<Req>(g: GlobalChecker<Req>, req: Req): (r: bool)
    ensures r <==> g.gate(req)
  {
    g.gate(req)
  }

  /** check: false whenever the predicate does not resolve; otherwise the
      checker's verdict on the content with the stored args and confArgs. */
  function Check<Req>(g: GlobalChecker<Req>, req: Req, contentToCheck: Document): (r: bool)
    ensures !Resolve(g, req) ==> !r
    ensures Resolve(g, req) ==> (r <==> g.checker.check(req, contentToCheck, g.args, g.confArgs))
  {
    Resolve(g, req) && g.checker.check(req, contentToCheck, g.args, g.confArgs)
  }

  /** getPhase: a one-line delegation to the checker. */
  function GetPhase<Req>(g: GlobalChecker<Req>, req: Req): (r: Phase)
    ensures r == g.checker.phase(req)
  {
    g.checker.phase(req)
  }

  /** doesSupportRequests: a one-line delegation to the checker. */
  function DoesSupportRequests<Req>(g: GlobalChecker<Req>, req: Req): (r: bool)
    ensures r <==> g.checker.supportsRequests(req)
  {
    g.checker.supportsRequests(req)
  }

  /** Short-circuit: when the predicate does not resolve, the checker is never
      consulted, so replacing it cannot change the verdict. */
  lemma UnresolvedIgnoresChecker<Req>(g: GlobalChecker<Req>, req: Req, content: Document, other: Checker<Req>)
    requires !g.gate(req)
    ensures !Check(g, req, content) && !Check(g.(checker := other), req, content)
  {
  }

  /** A resolved check depends only on the checker, the content and the two
      stored argument values: not on skipNotSupported. */
  lemma ResolvedCheckDelegates<Req>(g: GlobalChecker<Req>, req: Req, content: Document, skip: bool)
    requires g.gate(req)
    ensures Check(g, req, content) == g.checker.check(req, content, g.args, g.confArgs)
    ensures Check(g.(skipNotSupported := skip), req, content) == Check(g, req, content)
  {
  }

  /** The phase and the support test are the checker's own, whatever the
      predicate and the arguments the wrapper stores. */
  lemma DelegationIgnoresGate<Req>(g: GlobalChecker<Req>, req: Req, p: Req -> bool, skip: bool, a: BsonValue, c: BsonValue)
    ensures GetPhase(g.(gate := p, skipNotSupported := skip, args := a, confArgs := c), req) == GetPhase(g, req)
    ensures DoesSupportRequests(g.(gate := p, skipNotSupported := skip, args := a, confArgs := c), req)
              == DoesSupportRequests(g, req)
  {
  }

  /** The constructor keeps each argument unchanged. Because every field is
      final, this is the destructor law of the datatype and needs no proof;
      it stands for the getters, which return the fields as stored. */
  lemma ConstructorKeepsArguments<Req>(checker: Checker<Req>, gate: Req -> bool, skip: bool, args: BsonValue, confArgs: BsonValue)
    ensures var g := GlobalChecker(checker, gate, skip, args, confArgs);
            g.checker == checker && g.gate == gate && g.skipNotSupported == skip
            && g.args == args && g.confArgs == confArgs
  {
  }
}
