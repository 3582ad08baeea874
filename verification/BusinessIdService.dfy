/** The service: an idempotent `ensure` over a slot, and the uniqueness of everything it issues. */
module BusinessIdService {
  import opened Outcomes
  import opened Text
  import opened BusinessIdCore
  import opened BusinessIdAllocator
  import opened BusinessIdProfile
  import BusinessIdCode
  import Base36
  import Feistel

  /** What the service looks up in its context, and the context's business date. */
  datatype Context = Context(profileFactory: bool, keyProvider: Option<KeyProvider>, businessDate: BusinessDate)

  /** Creates the profile: the first error the factory lookup or the factory meets, if any. */
  function ProfileError(context: Context, definition: Definition): Option<ErrorCode> {
    if !context.profileFactory then Some(ProfileNotFound)
    else if definition.profile != DEFAULT_PROFILE then Some(ProfileNotFound)
    else if context.keyProvider.None? then Some(KeyNotFound)
    else None
  }

  /** Plan, allocate, format. A number whose formatting fails stays used. */
  ghost function Issue(hmac: Feistel.Hmac, utf8: Utf8, keys: KeyProvider, counters: Counters, request: Request)
    : (Counters, Result<BusinessIdValue, ErrorCode>)
  {
    var plan := PlanFor(request);
    if plan.Err? then (counters, Err(plan.error)) else IssuePlanned(hmac, utf8, keys, counters, plan.value)
  }

  ghost function IssuePlanned(hmac: Feistel.Hmac, utf8: Utf8, keys: KeyProvider, counters: Counters, plan: Plan)
    : (Counters, Result<BusinessIdValue, ErrorCode>)
  {
    var (after, allocation) := AllocateStep(counters, plan);
    if allocation.Err? then (after, Err(allocation.error))
    else (after, Formatted(hmac, utf8, keys, plan, allocation.value))
  }

  datatype Slot = Slot(value: Option<string>, newAggregate: bool) {
    predicate Filled() {
      value.Some? && !Blank(value.value)
    }
  }

  ghost function EnsureStep(
    hmac: Feistel.Hmac, utf8: Utf8, context: Context, definition: Definition,
    domainRootKey: string, aggregateType: string, counters: Counters, slot: Slot)
    : (Counters, Slot, Result<BusinessIdValue, ErrorCode>)
  {
    if ProfileError(context, definition).Some? then (counters, slot, Err(ProfileError(context, definition).value))
    else if slot.Filled() then (counters, slot, Validate(definition, slot.value.value))
    else if !slot.newAggregate then (counters, slot, Err(Immutable))
    else
      var request := Request(definition, domainRootKey, aggregateType, context.businessDate);
      var (after, value) := Issue(hmac, utf8, context.keyProvider.value, counters, request);
      (after, if value.Ok? then slot.(value := Some(value.value.value)) else slot, value)
  }

  class AggregateSlot {
    var value: Option<string>
    const newAggregate: bool

    constructor (value: Option<string>, newAggregate: bool)
      ensures State() == Slot(value, newAggregate)
    {
      this.value := value;
      this.newAggregate := newAggregate;
    }

    function State(): Slot
      reads this
    {
      Slot(value, newAggregate)
    }
  }

  class DefaultBusinessIdService {
    const allocator: InMemoryBusinessIdAllocator

    constructor (allocator: InMemoryBusinessIdAllocator)
      ensures this.allocator == allocator
    {
      this.allocator := allocator;
    }

    method Ensure(
      hmac: Feistel.Hmac, utf8: Utf8, context: Context, definition: Definition,
      domainRootKey: string, aggregateType: string, slot: AggregateSlot)
      returns (r: Result<BusinessIdValue, ErrorCode>)
      modifies allocator, slot
      ensures (allocator.counters, slot.State(), r)
           == EnsureStep(hmac, utf8, context, definition, domainRootKey, aggregateType,
                         old(allocator.counters), old(slot.State()))
    {
      if !context.profileFactory || definition.profile != DEFAULT_PROFILE {
        return Err(ProfileNotFound);
      }
      if context.keyProvider.None? {
        return Err(KeyNotFound);
      }
      if slot.value.Some? && !Blank(slot.value.value) {
        return Validate(definition, slot.value.value);
      }
      if !slot.newAggregate {
        return Err(Immutable);
      }
      var plan := PlanFor(Request(definition, domainRootKey, aggregateType, context.businessDate));
      if plan.Err? {
        return Err(plan.error);
      }
      var allocation := allocator.Allocate(plan.value);
      if allocation.Err? {
        return Err(allocation.error);
      }
      r := Format(hmac, utf8, context.keyProvider.value, plan.value, allocation.value);
      if r.Ok? {
        slot.value := Some(r.value.value);
      }
    }
  }

  // ----- idempotence

  /** The value is the print of the code of its scope's next number under the current key, and validates as itself. */
  ghost predicate IsCodeOfNext(
    hmac: Feistel.Hmac, utf8: Utf8, keys: KeyProvider, counters: Counters, request: Request, value: BusinessIdValue)
  {
    && PlanFor(request).Ok?
    && var plan := PlanFor(request).value;
    && var key := keys(request.definition, plan.scope);
    && key.Some?
    && Next(counters, plan) < Base36.DOMAIN_SIZE
    && var tweak := BusinessIdCode.CanonicalTweak(utf8, plan.scope, key.value.version);
    && tweak.Some?
    && var code := BusinessIdCode.CodeOf(hmac, key.value.key, tweak.value, Next(counters, plan));
    && value.value == Printed(request.definition, DateText(request.businessDate), code)
    && Validate(request.definition, value.value) == Ok(value)
    && !Blank(value.value)
  }

  /** A successful issue prints a code of its scope at the scope's next number. */
  lemma {:induction false} IssueIs(hmac: Feistel.Hmac, utf8: Utf8, keys: KeyProvider, counters: Counters,
      request: Request)
    requires request.definition.Valid()
    ensures Issue(hmac, utf8, keys, counters, request).1.Ok? ==>
      IsCodeOfNext(hmac, utf8, keys, counters, request, Issue(hmac, utf8, keys, counters, request).1.value)
  {
    if Issue(hmac, utf8, keys, counters, request).1.Err? {
      return;
    }
    var plan := PlanFor(request).value;
    var key := keys(request.definition, plan.scope).value;
    var tweak := BusinessIdCode.CanonicalTweak(utf8, plan.scope, key.version).value;
    ValidateAcceptsPrinted(request.definition, request.businessDate,
      BusinessIdCode.CodeOf(hmac, key.key, tweak, Next(counters, plan)));
  }

  /** `ensure` called again and again on one slot, while the counters and the context change freely in between. */
  ghost predicate KeepsAnswering(
    hmac: Feistel.Hmac, utf8: Utf8, definition: Definition, domainRootKey: string, aggregateType: string,
    slot: Slot, value: BusinessIdValue, calls: seq<(Context, Counters)>)
  {
    forall i :: 0 <= i < |calls| && ProfileError(calls[i].0, definition).None? ==>
      EnsureStep(hmac, utf8, calls[i].0, definition, domainRootKey, aggregateType, calls[i].1, slot)
      == (calls[i].1, slot, Ok(value))
  }

  /**
    Once `ensure` has succeeded on a slot, every later call, on whatever date and whatever the counters
    have become, returns an equal value, leaves the slot alone and allocates nothing.
   */
  lemma {:induction false} EnsureIsIdempotent(
    hmac: Feistel.Hmac, utf8: Utf8, context: Context, definition: Definition,
    domainRootKey: string, aggregateType: string, counters: Counters, slot: Slot, calls: seq<(Context, Counters)>)
    requires definition.Valid()
    requires EnsureStep(hmac, utf8, context, definition, domainRootKey, aggregateType, counters, slot).2.Ok?
    ensures var (_, after, value) := EnsureStep(hmac, utf8, context, definition, domainRootKey, aggregateType, counters, slot);
      KeepsAnswering(hmac, utf8, definition, domainRootKey, aggregateType, after, value.value, calls)
  {
    if !slot.Filled() {
      IssueIs(hmac, utf8, context.keyProvider.value, counters,
        Request(definition, domainRootKey, aggregateType, context.businessDate));
    }
  }

  /** Only a blank slot of a new aggregate ever allocates; an established aggregate's blank slot is refused. */
  lemma {:induction false} OnlyNewBlankSlotsAllocate(
    hmac: Feistel.Hmac, utf8: Utf8, context: Context, definition: Definition,
    domainRootKey: string, aggregateType: string, counters: Counters, slot: Slot)
    requires slot.Filled() || !slot.newAggregate
    ensures var (after, same, r) := EnsureStep(hmac, utf8, context, definition, domainRootKey, aggregateType, counters, slot);
      && after == counters && same == slot
      && (!slot.Filled() && ProfileError(context, definition).None? ==> r == Err(Immutable))
  {
  }

  // ----- uniqueness over runs

  ghost function CountersAfterIssues(hmac: Feistel.Hmac, utf8: Utf8, keys: KeyProvider, counters: Counters,
      requests: seq<Request>): Counters {
    if requests == [] then counters
    else
      var front := CountersAfterIssues(hmac, utf8, keys, counters, requests[..|requests| - 1]);
      Issue(hmac, utf8, keys, front, requests[|requests| - 1]).0
  }

  /** The answer to request `i` of the run. */
  ghost function Issued(hmac: Feistel.Hmac, utf8: Utf8, keys: KeyProvider, counters: Counters,
      requests: seq<Request>, i: nat)
    : Result<BusinessIdValue, ErrorCode>
    requires i < |requests|
  {
    Issue(hmac, utf8, keys, CountersAfterIssues(hmac, utf8, keys, counters, requests[..i]), requests[i]).1
  }

  /** Counters only grow along a run. */
  lemma {:induction false} CountersGrow(
    hmac: Feistel.Hmac, utf8: Utf8, keys: KeyProvider, counters: Counters, requests: seq<Request>, i: nat, j: nat, scope: Scope)
    requires i <= j <= |requests|
    ensures var early := CountersAfterIssues(hmac, utf8, keys, counters, requests[..i]);
      var late := CountersAfterIssues(hmac, utf8, keys, counters, requests[..j]);
      scope in early ==> scope in late && early[scope] <= late[scope]
  {
    if i < j {
      CountersGrow(hmac, utf8, keys, counters, requests, i, j - 1, scope);
      assert requests[..j][..j - 1] == requests[..j - 1];
      IssueKeepsCounters(hmac, utf8, keys, CountersAfterIssues(hmac, utf8, keys, counters, requests[..j - 1]),
                         requests[j - 1], scope);
    }
  }

  lemma {:induction false} IssueKeepsCounters(
    hmac: Feistel.Hmac, utf8: Utf8, keys: KeyProvider, counters: Counters, request: Request, scope: Scope)
    ensures var after := Issue(hmac, utf8, keys, counters, request).0;
      scope in counters ==> scope in after && counters[scope] <= after[scope]
  {
  }

  /** After an issue, its scope's next number is past the one it used. */
  lemma {:induction false} IssueMovesOn(
    hmac: Feistel.Hmac, utf8: Utf8, keys: KeyProvider, counters: Counters, requests: seq<Request>, i: nat, j: nat)
    requires i < j < |requests| && requests[i].definition.Valid()
    ensures Issued(hmac, utf8, keys, counters, requests, i).Ok? ==>
      && PlanFor(requests[i]).Ok?
      && Next(CountersAfterIssues(hmac, utf8, keys, counters, requests[..i]), PlanFor(requests[i]).value)
           < Next(CountersAfterIssues(hmac, utf8, keys, counters, requests[..j]), PlanFor(requests[i]).value)
  {
    var before := CountersAfterIssues(hmac, utf8, keys, counters, requests[..i]);
    IssueCounts(hmac, utf8, keys, before, requests[i]);
    assert requests[..i + 1][..i] == requests[..i];
    if Issued(hmac, utf8, keys, counters, requests, i).Ok? {
      CountersGrow(hmac, utf8, keys, counters, requests, i + 1, j, PlanFor(requests[i]).value.scope);
    }
  }

  /** A successful issue leaves its scope's counter behind the number it used. */
  lemma {:induction false} IssueCounts(hmac: Feistel.Hmac, utf8: Utf8, keys: KeyProvider, counters: Counters,
      request: Request)
    ensures var r := Issue(hmac, utf8, keys, counters, request);
      r.1.Ok? ==>
        && PlanFor(request).Ok? && PlanFor(request).value.scope in r.0
        && r.0[PlanFor(request).value.scope] == Next(counters, PlanFor(request).value) + 1
  {
  }

  /**
    In every run of issues over any scopes, two identifiers issued for one definition, domain root and
    aggregate type differ, on the same date and across dates, whatever HMAC is.
   */
  lemma {:induction false} IssuedAreDistinct(
    hmac: Feistel.Hmac, utf8: Utf8, keys: KeyProvider, counters: Counters, requests: seq<Request>, i: nat, j: nat)
    requires i < j < |requests|
    requires requests[i].definition == requests[j].definition && requests[i].definition.Valid()
    requires requests[i].domainRootKey == requests[j].domainRootKey
    requires requests[i].aggregateType == requests[j].aggregateType
    ensures var first := Issued(hmac, utf8, keys, counters, requests, i);
      var second := Issued(hmac, utf8, keys, counters, requests, j);
      first.Ok? && second.Ok? ==> first.value.value != second.value.value
  {
    var before := CountersAfterIssues(hmac, utf8, keys, counters, requests[..i]);
    var later := CountersAfterIssues(hmac, utf8, keys, counters, requests[..j]);
    var first := Issued(hmac, utf8, keys, counters, requests, i);
    var second := Issued(hmac, utf8, keys, counters, requests, j);
    IssueIs(hmac, utf8, keys, before, requests[i]);
    IssueIs(hmac, utf8, keys, later, requests[j]);
    if first.Ok? && second.Ok? && first.value.value == second.value.value {
      SameValueSameNumber(hmac, utf8, keys, before, later, requests[i], requests[j], first.value);
      IssueMovesOn(hmac, utf8, keys, counters, requests, i, j);
      assert false;
    }
  }

  /** Two requests that print alike are about one plan and one number. */
  lemma {:induction false} SameValueSameNumber(
    hmac: Feistel.Hmac, utf8: Utf8, keys: KeyProvider, before: Counters, later: Counters,
    r: Request, s: Request, value: BusinessIdValue)
    requires r.definition == s.definition && r.domainRootKey == s.domainRootKey && r.aggregateType == s.aggregateType
    requires IsCodeOfNext(hmac, utf8, keys, before, r, value) && IsCodeOfNext(hmac, utf8, keys, later, s, value)
    ensures PlanFor(r) == PlanFor(s) && Next(before, PlanFor(r).value) == Next(later, PlanFor(r).value)
  {
    var plan, other := PlanFor(r).value, PlanFor(s).value;
    var key, otherKey := keys(plan.definition, plan.scope).value, keys(other.definition, other.scope).value;
    var tweak := BusinessIdCode.CanonicalTweak(utf8, plan.scope, key.version).value;
    var otherTweak := BusinessIdCode.CanonicalTweak(utf8, other.scope, otherKey.version).value;
    PrintedIsInjective(r.definition, r.businessDate, s.businessDate,
      BusinessIdCode.CodeOf(hmac, key.key, tweak, Next(before, plan)),
      BusinessIdCode.CodeOf(hmac, otherKey.key, otherTweak, Next(later, other)));
    assert plan == other;
    BusinessIdCode.CodesAreDistinct(hmac, key.key, tweak, Next(before, plan), Next(later, plan));
  }
}
