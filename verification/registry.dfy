/**
 * The legacy runtime registry AutoValueMoshiJsonAdapterFactory: generated classes register their
 * per-class factories in a shared set, and the registry's own `create` asks each registered
 * factory in turn, returning the first adapter that is not null.
 *
 * A factory is any value of type F; what it answers for the type being asked about is the
 * function `produce` (None stands for null). The set is a HashSet, so its iteration order is
 * not specified: it is a parameter, any sequence listing every registered factory once.
 */
module Registry {
  import opened Wrappers
  import opened Seqs

  /** `order` lists the factories of `registered`, each exactly once. */
  predicate Enumerates<F>(order: seq<F>, registered: set<F>) {
    Distinct(order)
    && (forall i :: 0 <= i < |order| ==> order[i] in registered)
    && (forall f :: f in registered ==> f in order)
  }

  /** register: add the factory to the set; a factory already there changes nothing. */
  function Register<F>(registered: set<F>, factory: F): (r: set<F>)
    ensures factory in r
    ensures registered <= r
    ensures forall f :: f in r ==> f == factory || f in registered
    ensures factory in registered ==> r == registered
  {
    registered + {factory}
  }

  /** Registering the same factory a second time has no further effect. */
  lemma RegisterIdempotent<F>(registered: set<F>, factory: F)
    ensures Register(Register(registered, factory), factory) == Register(registered, factory)
  {
  }

  /** The reference answer: the first factory in iteration order that produces an adapter. */
  function FirstProduced<F, A>(order: seq<F>, produce: F -> Option<A>): (r: Option<A>)
    ensures r.None? <==> forall i :: 0 <= i < |order| ==> produce(order[i]).None?
    ensures r.Some? ==> exists i :: 0 <= i < |order| && produce(order[i]) == r
  {
    if |order| == 0 then None
    else if produce(order[0]).Some? then produce(order[0])
    else
      var r := FirstProduced(order[1..], produce);
      assert forall i :: 1 <= i < |order| ==> order[i] == order[1..][i - 1];
      r
  }

  /** create: iterate over the registered factories and return the first non-null adapter. */
  method Create<F, A>(registered: set<F>, order: seq<F>, produce: F -> Option<A>) returns (adapter: Option<A>)
    requires Enumerates(order, registered)
    ensures adapter.None? <==> forall f :: f in registered ==> produce(f).None?
    ensures adapter.Some? ==> exists f :: f in registered && produce(f) == adapter
    ensures adapter == FirstProduced(order, produce)
  {
    var k := 0;
    while k < |order|
      invariant 0 <= k <= |order|
      invariant forall j :: 0 <= j < k ==> produce(order[j]).None?
      invariant FirstProduced(order, produce) == FirstProduced(order[k..], produce)
    {
      var a := produce(order[k]);
      if a.Some? {
        assert order[k..][0] == order[k];
        return a;
      }
      assert order[k..][1..] == order[k + 1..];
      k := k + 1;
    }
    assert order[k..] == [];
    return None;
  }

  /**
   * When exactly one registered factory produces an adapter, that adapter is the answer, whatever
   * order the set iterates in.
   */
  lemma {:induction false} SoleProducerWins<F, A>(order: seq<F>, produce: F -> Option<A>, f: F)
    requires f in order && produce(f).Some?
    requires forall i :: 0 <= i < |order| && order[i] != f ==> produce(order[i]).None?
    ensures FirstProduced(order, produce) == produce(f)
  {
    if order[0] != f {
      assert forall i :: 0 <= i < |order[1..]| ==> order[1..][i] == order[i + 1];
      SoleProducerWins(order[1..], produce, f);
    }
  }

}
