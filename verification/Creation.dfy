/** What `create` works on, whatever runs beside it: the draft of a request, the row it becomes
    and the look-up by idempotency key. */
module Creation {
  import opened Options
  import opened Workflow

  /** The values of one `create` call, after redaction and canonicalisation. */
  datatype Draft = Draft(
    id: string, actionId: string, targetId: string, reason: string, requester: string, key: string, ttl: int)

  function NewRow(o: Oracles, d: Draft, now: int): Row {
    Row(d.id, d.actionId, d.targetId, d.reason, d.requester, PendingFirst, d.key,
        o.payloadHash(d.actionId, d.targetId, d.reason), Iso(now), Iso(now + d.ttl * SECOND),
        None, None, None, None, None, None, None)
  }

  predicate ForDraft(o: Oracles, d: Draft, row: Row) {
    && row.requester == d.requester && row.key == d.key
    && row.payloadHash == o.payloadHash(d.actionId, d.targetId, d.reason)
  }

  ghost predicate HasKey(rows: map<string, Row>, d: Draft, id: string) {
    id in rows && rows[id].requester == d.requester && rows[id].key == d.key
  }

  ghost predicate KeyTaken(rows: map<string, Row>, d: Draft) {
    exists id :: HasKey(rows, d, id)
  }

  /** SELECT by requester and idempotency key. */
  ghost function FindByKey(rows: map<string, Row>, d: Draft): (found: Option<string>)
    ensures found.Some? ==> HasKey(rows, d, found.value)
    ensures found.None? ==> !KeyTaken(rows, d)
  {
    if KeyTaken(rows, d) then var id :| HasKey(rows, d, id); Some(id) else None
  }
}
