/** The service from its inputs alone: every branch of `ensure`, down to the characters of the value it issues. */
module BusinessIdEnsure {
  import opened Outcomes
  import opened Text
  import opened BusinessIdCore
  import opened BusinessIdAllocator
  import opened BusinessIdProfile
  import opened BusinessIdService
  import opened BusinessIdEncoding
  import Feistel
  import BusinessIdCode

  /** What stops `ensure` before it looks at the slot. */
  function Stopped(context: Context, definition: Definition): Option<ErrorCode> {
    if !context.profileFactory || definition.profile != "daily-permuted-v1" then Some(ProfileNotFound)
    else if context.keyProvider.None? then Some(KeyNotFound)
    else None
  }

  /**
    A filled slot: nothing changes, and the answer is the slot's own text if that is well formed, and
    FORMAT_INVALID otherwise.
   */
  lemma {:induction false} FilledSlotIsValidated(
    hmac: Feistel.Hmac, utf8: Utf8, context: Context, definition: Definition,
    domainRootKey: string, aggregateType: string, counters: Counters, slot: Slot)
    requires slot.value.Some? && !Blank(slot.value.value)
    ensures EnsureStep(hmac, utf8, context, definition, domainRootKey, aggregateType, counters, slot)
         == (counters, slot,
             if Stopped(context, definition).Some? then Err(Stopped(context, definition).value)
             else if WellFormed(definition, slot.value.value) then
               Ok(BusinessIdValue(slot.value.value, definition.profile, definition.policyVersion))
             else Err(FormatInvalid))
  {
    ValidateIs(definition, slot.value.value);
  }

  // ----- a blank slot

  predicate IsDaily(definition: Definition) {
    definition.reset == "daily" && definition.dateFormat == "yyyyMMdd" && definition.digits == 6
  }

  predicate Named(definition: Definition, domainRootKey: string, aggregateType: string) {
    !Blank(domainRootKey) && !Blank(aggregateType) && !Blank(definition.namespace)
  }

  function ScopeFor(definition: Definition, domainRootKey: string, aggregateType: string, date: BusinessDate): Scope {
    Scope(domainRootKey, aggregateType, definition.namespace, EightDigits(date))
  }

  function NextNumber(counters: Counters, scope: Scope): nat {
    if scope in counters then counters[scope] else 0
  }

  /** The value that number `n` of the scope is issued as. */
  ghost predicate IsIssued(
    hmac: Feistel.Hmac, utf8: Utf8, key: EncodingKey, definition: Definition, scope: Scope, n: nat, value: string)
  {
    exists tweak, code ::
      && IsTweak(utf8, scope, key.version, tweak) && IsCodeFor(hmac, key.key, tweak, n, code)
      && value == definition.prefix + definition.separator + scope.periodKey + definition.separator + code
  }

  /** What becomes of counters, slot and answer once a number is taken. */
  ghost predicate Formats(
    hmac: Feistel.Hmac, utf8: Utf8, key: Option<EncodingKey>, definition: Definition, scope: Scope, n: nat,
    slot: Slot, after: Slot, answer: Result<BusinessIdValue, ErrorCode>)
  {
    if key.None? then after == slot && answer == Err(KeyNotFound)
    else if !FieldsFit(utf8, scope) then after == slot && answer == Err(FramingOverflow)
    else
      && answer.Ok? && IsIssued(hmac, utf8, key.value, definition, scope, n, answer.value.value)
      && answer.value == BusinessIdValue(answer.value.value, definition.profile, definition.policyVersion)
      && after == slot.(value := Some(answer.value.value))
  }

  lemma {:induction false} PlanIs(request: Request)
    requires request.definition.profile == "daily-permuted-v1"
    ensures var d, scope := request.definition,
        ScopeFor(request.definition, request.domainRootKey, request.aggregateType, request.businessDate);
      PlanFor(request)
      == if IsDaily(d) && Named(d, request.domainRootKey, request.aggregateType) then
           Ok(Plan(d, scope, EightDigits(request.businessDate), 0, 2_176_782_335))
         else Err(DefinitionInvalid)
  {
    DateTextIs(request.businessDate);
    DigitIsNotBlank(EightDigits(request.businessDate));
  }

  lemma {:induction false} DigitIsNotBlank(text: string)
    requires text != [] && '0' <= text[0] <= '9'
    ensures !Blank(text)
  {
    assert text[0] in text && !IsStripped(text[0]);
  }

  /** The text that a number is formatted as: its code behind prefix and date. */
  ghost predicate IsFormatted(hmac: Feistel.Hmac, utf8: Utf8, key: EncodingKey, plan: Plan, n: nat, text: string) {
    exists tweak, code ::
      && IsTweak(utf8, plan.scope, key.version, tweak) && IsCodeFor(hmac, key.key, tweak, n, code)
      && text == plan.definition.prefix + plan.definition.separator + plan.dateText + plan.definition.separator + code
  }

  /**
    Formatting any allocation under any plan: refused for another scope, without a key, for a number or a field out
    of range, and for a blank text, in this order; else the text with the definition's profile and policy version.
   */
  lemma {:induction false} FormattedIs(hmac: Feistel.Hmac, utf8: Utf8, keys: KeyProvider, plan: Plan,
      allocation: Allocation) returns (text: string)
    ensures var answer, key := Formatted(hmac, utf8, keys, plan, allocation), keys(plan.definition, plan.scope);
      if allocation.scope != plan.scope then answer == Err(DefinitionInvalid)
      else if key.None? then answer == Err(KeyNotFound)
      else if allocation.sequence >= 2_176_782_336 then answer == Err(RangeExhausted)
      else if !FieldsFit(utf8, plan.scope) then answer == Err(FramingOverflow)
      else
        && IsFormatted(hmac, utf8, key.value, plan, allocation.sequence, text)
        && answer == if Blank(text) then Err(FormatInvalid)
                     else Ok(BusinessIdValue(text, plan.definition.profile, plan.definition.policyVersion))
  {
    var key := keys(plan.definition, plan.scope);
    text := "";
    if key.Some? {
      var tweak := EncodedIs(hmac, utf8, allocation.sequence, plan.scope, key.value);
      var code := BusinessIdCode.Encoded(hmac, utf8, allocation.sequence, plan.scope, key.value);
      if code.Ok? {
        text := Printed(plan.definition, plan.dateText, code.value);
        PrintedIs(plan.definition, plan.dateText, code.value);
        assert IsTweak(utf8, plan.scope, key.value.version, tweak)
          && IsCodeFor(hmac, key.value.key, tweak, allocation.sequence, code.value);
      }
    }
  }

  lemma {:induction false} FormatIs(hmac: Feistel.Hmac, utf8: Utf8, keys: KeyProvider, plan: Plan, n: nat, slot: Slot)
    requires plan.definition.Valid() && n < LIMIT && plan.dateText == plan.scope.periodKey && |plan.dateText| == 8
    ensures var answer := Formatted(hmac, utf8, keys, plan, Allocation(plan.scope, n));
      var after := if answer.Ok? then slot.(value := Some(answer.value.value)) else slot;
      Formats(hmac, utf8, keys(plan.definition, plan.scope), plan.definition, plan.scope, n, slot, after, answer)
  {
    var key := keys(plan.definition, plan.scope);
    var text := FormattedIs(hmac, utf8, keys, plan, Allocation(plan.scope, n));
    if key.Some? && FieldsFit(utf8, plan.scope) {
      FormattedIsIssued(hmac, utf8, key.value, plan, n, text);
    }
  }

  lemma {:induction false} FormattedIsIssued(hmac: Feistel.Hmac, utf8: Utf8, key: EncodingKey, plan: Plan, n: nat,
      text: string)
    requires plan.definition.Valid() && plan.dateText == plan.scope.periodKey
    requires IsFormatted(hmac, utf8, key, plan, n, text)
    ensures IsIssued(hmac, utf8, key, plan.definition, plan.scope, n, text) && !Blank(text)
  {
    var prefix := plan.definition.prefix;
    var c :| c in prefix && !IsStripped(c);
    assert prefix <= text && c in text[..|prefix|];
  }

  lemma {:induction false} BlankSlotIsIssued(
    hmac: Feistel.Hmac, utf8: Utf8, context: Context, definition: Definition,
    domainRootKey: string, aggregateType: string, counters: Counters, slot: Slot)
    requires (slot.value.None? || Blank(slot.value.value)) && Stopped(context, definition).None?
    ensures var request := Request(definition, domainRootKey, aggregateType, context.businessDate);
      var issued := Issue(hmac, utf8, context.keyProvider.value, counters, request);
      EnsureStep(hmac, utf8, context, definition, domainRootKey, aggregateType, counters, slot)
      == if !slot.newAggregate then (counters, slot, Err(Immutable))
         else (issued.0, if issued.1.Ok? then slot.(value := Some(issued.1.value.value)) else slot, issued.1)
  {
  }

  lemma {:induction false} PlannedIs(hmac: Feistel.Hmac, utf8: Utf8, keys: KeyProvider, counters: Counters, plan: Plan)
    requires plan.initialSequence == 0 && plan.maximumSequence == 2_176_782_335
    ensures var n := NextNumber(counters, plan.scope);
      IssuePlanned(hmac, utf8, keys, counters, plan)
      == if n >= 2_176_782_336 then (counters, Err(RangeExhausted))
         else (counters[plan.scope := n + 1], Formatted(hmac, utf8, keys, plan, Allocation(plan.scope, n)))
  {
  }

  /** A number is taken from a plan's scope and formatted for the slot, unless there is none left. */
  ghost predicate Takes(
    hmac: Feistel.Hmac, utf8: Utf8, keys: KeyProvider, definition: Definition, scope: Scope, counters: Counters,
    slot: Slot, step: (Counters, Slot, Result<BusinessIdValue, ErrorCode>))
  {
    var n := NextNumber(counters, scope);
    if n >= 2_176_782_336 then step == (counters, slot, Err(RangeExhausted))
    else
      && step.0 == counters[scope := n + 1]
      && Formats(hmac, utf8, keys(definition, scope), definition, scope, n, slot, step.1, step.2)
  }

  lemma {:induction false} PlannedTakes(hmac: Feistel.Hmac, utf8: Utf8, keys: KeyProvider, counters: Counters,
      plan: Plan, slot: Slot)
    requires plan.initialSequence == 0 && plan.maximumSequence == 2_176_782_335
    requires plan.definition.Valid() && plan.dateText == plan.scope.periodKey && |plan.dateText| == 8
    ensures var issued := IssuePlanned(hmac, utf8, keys, counters, plan);
      Takes(hmac, utf8, keys, plan.definition, plan.scope, counters, slot,
            (issued.0, if issued.1.Ok? then slot.(value := Some(issued.1.value.value)) else slot, issued.1))
  {
    PlannedIs(hmac, utf8, keys, counters, plan);
    if NextNumber(counters, plan.scope) < LIMIT {
      FormatIs(hmac, utf8, keys, plan, NextNumber(counters, plan.scope), slot);
    }
  }

  /**
    A blank slot: an established aggregate's is refused; for a new one the scope is built from the definition, the
    root, the type and the date; the scope's next number is taken, if there is one, and that counter alone moves;
    and the slot gets the number's printed code, which is also the answer.
   */
  lemma {:induction false} BlankSlotIsFilled(
    hmac: Feistel.Hmac, utf8: Utf8, context: Context, definition: Definition,
    domainRootKey: string, aggregateType: string, counters: Counters, slot: Slot)
    requires definition.Valid() && (slot.value.None? || Blank(slot.value.value)) && Stopped(context, definition).None?
    ensures var step := EnsureStep(hmac, utf8, context, definition, domainRootKey, aggregateType, counters, slot);
      var scope := ScopeFor(definition, domainRootKey, aggregateType, context.businessDate);
      if !slot.newAggregate then step == (counters, slot, Err(Immutable))
      else if !IsDaily(definition) || !Named(definition, domainRootKey, aggregateType) then
        step == (counters, slot, Err(DefinitionInvalid))
      else Takes(hmac, utf8, context.keyProvider.value, definition, scope, counters, slot, step)
  {
    var request := Request(definition, domainRootKey, aggregateType, context.businessDate);
    PlanIs(request);
    BlankSlotIsIssued(hmac, utf8, context, definition, domainRootKey, aggregateType, counters, slot);
    IssueIsPlanned(hmac, utf8, context.keyProvider.value, counters, request);
    if PlanFor(request).Ok? {
      PlannedTakes(hmac, utf8, context.keyProvider.value, counters, PlanFor(request).value, slot);
    }
  }

  lemma {:induction false} IssueIsPlanned(hmac: Feistel.Hmac, utf8: Utf8, keys: KeyProvider, counters: Counters,
      request: Request)
    ensures Issue(hmac, utf8, keys, counters, request)
         == if PlanFor(request).Err? then (counters, Err(PlanFor(request).error))
            else IssuePlanned(hmac, utf8, keys, counters, PlanFor(request).value)
  {
  }
}
