/**
 * `AuditLogService`: appends one immutable row to the AuditLogs table per
 * call, copying the caller's tags verbatim, serialising a non-null payload
 * and stamping the row with the current UTC time, which is passed in as `now`.
 */
module Audit {
  import opened Wrappers
  import opened Models
  import Json
  import Text
  import Store

  /** The text stored for a payload: null stays null, anything else is serialised. */
  function ChangesText(changes: Option<Json.Payload>): (r: Option<string>)
    ensures r.None? <==> changes.None?
    ensures changes.Some? && Json.WellFormed(changes.value) ==> Json.Parse(r.value) == Some(changes.value)
    ensures forall v :: changes.Some? && Json.Mentions(changes.value, v) ==> Text.Contains(r.value, v)
  {
    match changes
    case None => None
    case Some(p) => Json.SerializeFacts(p); Some(Json.Serialize(p))
  }

  /** The row `LogAsync(action, entityName, entityId, userId, changes)` writes at time `now`. */
  function NewEntry(action: string, entityName: string, entityId: Option<int>, userId: Option<int>,
                    changes: Option<Json.Payload>, now: int): (e: AuditEntry)
    ensures e.action == action && e.entityName == entityName
    ensures e.entityId == entityId && e.userId == userId
    ensures e.timestamp == now
    ensures e.changes.None? <==> changes.None?
    ensures changes.Some? && Json.WellFormed(changes.value) ==> Json.Parse(e.changes.value) == Some(changes.value)
    ensures forall v :: changes.Some? && Json.Mentions(changes.value, v) ==> Text.Contains(e.changes.value, v)
  {
    AuditEntry(action, entityName, entityId, userId, ChangesText(changes), now)
  }

  class AuditLogService {
    const context: Store.ClassifieldsContext

    constructor (context: Store.ClassifieldsContext)
      ensures this.context == context
    {
      this.context := context;
    }

    /** Appends exactly one entry and changes nothing else. */
    method LogAsync(action: string, entityName: string, entityId: Option<int>, userId: Option<int>,
                    changes: Option<Json.Payload>, now: int)
      modifies context
      ensures context.auditLogs == old(context.auditLogs) + [NewEntry(action, entityName, entityId, userId, changes, now)]
      ensures context.listings == old(context.listings) && context.categories == old(context.categories)
    {
      var entry := NewEntry(action, entityName, entityId, userId, changes, now);
      context.AddAuditLog(entry);
    }
  }

  /** How many entries of the log carry `action`. */
  function CountAction(log: seq<AuditEntry>, action: string): nat
  {
    if log == [] then 0 else (if log[0].action == action then 1 else 0) + CountAction(log[1..], action)
  }

  /** Appending one entry adds one to its own action's count and leaves every other count alone. */
  lemma {:induction false} CountActionAppend(log: seq<AuditEntry>, e: AuditEntry, action: string)
    ensures CountAction(log + [e], action) == CountAction(log, action) + (if e.action == action then 1 else 0)
  {
    if log != [] {
      assert (log + [e])[1..] == log[1..] + [e];
      CountActionAppend(log[1..], e, action);
    }
  }

  /** An action with a positive count occurs in the log. */
  lemma {:induction false} CountedActionOccurs(log: seq<AuditEntry>, action: string)
    requires CountAction(log, action) > 0
    ensures exists i :: 0 <= i < |log| && log[i].action == action
  {
    if log[0].action != action {
      CountedActionOccurs(log[1..], action);
      var i :| 0 <= i < |log[1..]| && log[1..][i].action == action;
      assert log[i + 1].action == action;
    }
  }
}
