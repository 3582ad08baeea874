/** Lineage tokens: each branch of a save extends its parent's token, and nodes are recovered only when needed. */
module TraceScope {
  import opened Outcomes
  import opened Text
  import opened LedgerModel

  datatype AuditReason = AuditReason(entity: string, entityId: int, reason: string)

  /** An immutable token: the latest reason and the token it extends. */
  datatype Scope = Scope(node: AuditReason, parent: Option<Scope>)

  predicate BlankReason(reason: Option<string>) {
    reason.None? || BlankIntent(reason.value)
  }

  /** Refused for a blank reason and for a key without an assigned number. */
  function Root(key: EntityKey, reason: Option<string>): Option<Scope> {
    if BlankReason(reason) || key.id <= 0 then None else Some(Scope(AuditReason(key.entity, key.id, reason.value), None))
  }

  /** A blank local reason adds nothing: the parent's token is used as it is. */
  function Branch(scope: Scope, key: EntityKey, reason: Option<string>): Option<Scope> {
    if key.id <= 0 then None
    else if BlankReason(reason) then Some(scope)
    else Some(Scope(AuditReason(key.entity, key.id, reason.value), Some(scope)))
  }

  function TraceNodeOf(node: AuditReason): TraceNode {
    TraceNode(node.entity, Some(node.entityId), node.reason, "auditReason", node.entity)
  }

  /** The reasons of the token and its ancestors, oldest first. */
  function Recovered(scope: Scope): Chain {
    (if scope.parent.None? then [] else Recovered(scope.parent.value)) + [TraceNodeOf(scope.node)]
  }

  function Reversed(nodes: Chain): Chain {
    if nodes == [] then [] else Reversed(nodes[1..]) + [nodes[0]]
  }

  lemma {:induction false} ReversedAppend(nodes: Chain, node: TraceNode)
    ensures Reversed(nodes + [node]) == [node] + Reversed(nodes)
  {
    if nodes == [] {
      assert nodes + [node] == [node];
      assert Reversed([node]) == Reversed([]) + [node];
    } else {
      assert (nodes + [node])[1..] == nodes[1..] + [node];
      ReversedAppend(nodes[1..], node);
    }
  }

  /** Walks to the root collecting nodes, then turns the list round. */
  method Recover(scope: Scope) returns (chain: Chain)
    ensures chain == Recovered(scope)
  {
    var nodes: Chain := [];
    var current := Some(scope);
    while current.Some?
      invariant Recovered(scope) == (if current.Some? then Recovered(current.value) else []) + Reversed(nodes)
      decreases current
    {
      var node := TraceNodeOf(current.value.node);
      ReversedAppend(nodes, node);
      nodes := nodes + [node];
      current := current.value.parent;
    }
    chain := ReverseInPlace(nodes);
  }

  method ReverseInPlace(nodes: Chain) returns (reversed: Chain)
    ensures reversed == Reversed(nodes)
  {
    reversed := [];
    var i := |nodes|;
    assert nodes[..i] == nodes;
    while i > 0
      invariant 0 <= i <= |nodes|
      invariant Reversed(nodes) == reversed + Reversed(nodes[..i])
    {
      assert nodes[..i] == nodes[..i - 1] + [nodes[i - 1]];
      ReversedAppend(nodes[..i - 1], nodes[i - 1]);
      i := i - 1;
      reversed := reversed + [nodes[i]];
    }
  }
}
