/** The counter behind Business IDs: one number per scope, handed out once. */
module BusinessIdAllocator {
  import opened Outcomes
  import opened BusinessIdCore
  import BusinessIdCode
  import Base36
  import Bytes
  import Feistel

  /** A plan as its constructor accepts it. */
  datatype Plan = Plan(definition: Definition, scope: Scope, dateText: string, initialSequence: nat, maximumSequence: nat) {
    predicate Valid() {
      initialSequence <= maximumSequence
    }

    /** The range every plan of profile V1 has. */
    predicate WholeDomain() {
      initialSequence == 0 && maximumSequence == BusinessIdCode.MAX_SEQUENCE
    }
  }

  type Counters = map<Scope, nat>

  /** The next number of a scope. */
  function Next(counters: Counters, plan: Plan): nat {
    if plan.scope in counters then counters[plan.scope] else plan.initialSequence
  }

  function AllocateStep(counters: Counters, plan: Plan): (Counters, Result<Allocation, ErrorCode>) {
    var current := Next(counters, plan);
    if current > plan.maximumSequence then (counters, Err(RangeExhausted))
    else (counters[plan.scope := current + 1], Ok(Allocation(plan.scope, current)))
  }

  class InMemoryBusinessIdAllocator {
    var counters: Counters

    constructor ()
      ensures counters == map[]
    {
      counters := map[];
    }

    /** One call under the lock is one atomic step. */
    method Allocate(plan: Plan) returns (r: Result<Allocation, ErrorCode>)
      modifies this
      ensures (counters, r) == AllocateStep(old(counters), plan)
    {
      var current := plan.initialSequence;
      if plan.scope in counters {
        current := counters[plan.scope];
      }
      if current > plan.maximumSequence {
        return Err(RangeExhausted);
      }
      counters := counters[plan.scope := current + 1];
      r := Ok(Allocation(plan.scope, current));
    }
  }

  // ----- runs: any interleaving of calls over any scopes

  /** The counters after the calls. */
  function CountersAfter(counters: Counters, plans: seq<Plan>): Counters {
    if plans == [] then counters
    else AllocateStep(CountersAfter(counters, plans[..|plans| - 1]), plans[|plans| - 1]).0
  }

  /** The answer to call `i`. */
  function Answer(plans: seq<Plan>, i: nat): Result<Allocation, ErrorCode>
    requires i < |plans|
  {
    AllocateStep(CountersAfter(map[], plans[..i]), plans[i]).1
  }

  function CallsFor(plans: seq<Plan>, scope: Scope): nat {
    if plans == [] then 0
    else CallsFor(plans[..|plans| - 1], scope) + if plans[|plans| - 1].scope == scope then 1 else 0
  }

  ghost predicate AllWholeDomain(plans: seq<Plan>) {
    forall i :: 0 <= i < |plans| ==> plans[i].WholeDomain()
  }

  /** Each counter is the number of calls for its scope, until the domain is used up; there it stays. */
  lemma {:induction false} CounterCountsCalls(plans: seq<Plan>, scope: Scope)
    requires AllWholeDomain(plans)
    ensures var c := CountersAfter(map[], plans);
      && (scope in c <==> CallsFor(plans, scope) > 0)
      && (scope in c ==>
            c[scope] == if CallsFor(plans, scope) <= Base36.DOMAIN_SIZE then CallsFor(plans, scope) else Base36.DOMAIN_SIZE)
  {
    if plans != [] {
      var front := plans[..|plans| - 1];
      assert AllWholeDomain(front);
      CounterCountsCalls(front, scope);
      CounterCountsCalls(front, plans[|plans| - 1].scope);
    }
  }

  /**
    In every interleaved run, the calls of one scope are answered 0, 1, 2, ... in order, whatever other
    scopes do meanwhile; the call after the last number fails and leaves every counter alone.
   */
  lemma {:induction false} SequencesAreConsecutive(plans: seq<Plan>, i: nat)
    requires AllWholeDomain(plans) && i < |plans|
    ensures var earlier := CallsFor(plans[..i], plans[i].scope);
      if earlier < Base36.DOMAIN_SIZE then
        Answer(plans, i) == Ok(Allocation(plans[i].scope, earlier))
      else
        && Answer(plans, i) == Err(RangeExhausted)
        && CountersAfter(map[], plans[..i + 1]) == CountersAfter(map[], plans[..i])
  {
    assert AllWholeDomain(plans[..i]);
    CounterCountsCalls(plans[..i], plans[i].scope);
    assert plans[..i + 1][..i] == plans[..i];
  }

  /** The call of a scope that has a given number of earlier calls of that scope. */
  lemma {:induction false} FindCall(plans: seq<Plan>, scope: Scope, earlier: nat) returns (i: nat)
    requires earlier < CallsFor(plans, scope)
    ensures i < |plans| && plans[i].scope == scope && CallsFor(plans[..i], scope) == earlier
  {
    var last := |plans| - 1;
    if CallsFor(plans[..last], scope) == earlier {
      i := last;
    } else {
      i := FindCall(plans[..last], scope, earlier);
      assert plans[..last][..i] == plans[..i];
    }
  }

  lemma {:induction false} CallsGrow(plans: seq<Plan>, scope: Scope, i: nat, j: nat)
    requires i < j <= |plans|
    ensures CallsFor(plans[..i], scope) + (if plans[i].scope == scope then 1 else 0) <= CallsFor(plans[..j], scope)
  {
    assert plans[..j][..j - 1] == plans[..j - 1];
    if i < j - 1 {
      CallsGrow(plans, scope, i, j - 1);
    }
  }

  /** Call `i` hands out `code` in `scope`. */
  ghost predicate HandsOut(
    hmac: Feistel.Hmac, key: seq<Bytes.byte>, tweak: seq<Bytes.byte>, plans: seq<Plan>, scope: Scope, i: nat, code: string)
    requires AllWholeDomain(plans) && i < |plans|
  {
    SequencesAreConsecutive(plans, i);
    && plans[i].scope == scope
    && Answer(plans, i).Ok?
    && BusinessIdCode.CodeOf(hmac, key, tweak, Answer(plans, i).value.sequence) == code
  }

  /** No code is handed out twice in a scope. */
  lemma {:induction false} CodeIsHandedOutOnce(
    hmac: Feistel.Hmac, key: seq<Bytes.byte>, tweak: seq<Bytes.byte>, plans: seq<Plan>, scope: Scope, i: nat, j: nat, code: string)
    requires AllWholeDomain(plans) && i < |plans| && j < |plans|
    ensures HandsOut(hmac, key, tweak, plans, scope, i, code) && HandsOut(hmac, key, tweak, plans, scope, j, code) ==> i == j
  {
    SequencesAreConsecutive(plans, i);
    SequencesAreConsecutive(plans, j);
    if HandsOut(hmac, key, tweak, plans, scope, i, code) && HandsOut(hmac, key, tweak, plans, scope, j, code) {
      BusinessIdCode.CodesAreDistinct(hmac, key, tweak, Answer(plans, i).value.sequence, Answer(plans, j).value.sequence);
      if i < j {
        CallsGrow(plans, scope, i, j);
      } else if j < i {
        CallsGrow(plans, scope, j, i);
      }
    }
  }

  /** After 36^6 calls for a scope, every six-character code has been handed out in it. */
  lemma {:induction false} FullScopeUsesEveryCode(
    hmac: Feistel.Hmac, key: seq<Bytes.byte>, tweak: seq<Bytes.byte>, plans: seq<Plan>, scope: Scope, code: string)
    returns (i: nat)
    requires AllWholeDomain(plans) && CallsFor(plans, scope) >= Base36.DOMAIN_SIZE
    requires Base36.IsCode(code)
    ensures i < |plans| && HandsOut(hmac, key, tweak, plans, scope, i, code)
  {
    var sequence := BusinessIdCode.EveryCodeHasASequence(hmac, key, tweak, code);
    i := FindCall(plans, scope, sequence);
    SequencesAreConsecutive(plans, i);
  }
}
