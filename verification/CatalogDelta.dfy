/**
 * Signed catalog deltas and the ingestion of one delta: last writer wins by revision and digest, with
 * tombstones, on a resource table that other rules guard as well.
 */
module CatalogDelta {
  import opened Options

  datatype Op = Upsert | Revoke
  datatype ResourceType = Http | Mcp

  /** The columns a snapshot carries; `content` stands for those that are copied as they are. */
  datatype Snapshot = Snapshot(resourceType: ResourceType, settlementTx: string, content: string)

  /** What the digest and the signature cover. */
  datatype Body = Body(
    op: Op, resourceUrl: string, toolName: string, payTo: string, network: string,
    revision: nat, issuedAt: nat, expiresAt: nat, state: Option<Snapshot>)

  datatype Delta = Delta(body: Body, signer: string, signature: string)

  type RowKey = (string, string)

  function RowOf(d: Delta): RowKey { (d.body.resourceUrl, d.body.toolName) }

  /** catalogDeltaKey. */
  function KeyText(d: Delta): string {
    d.body.network + ":" + d.body.payTo + ":" + d.body.resourceUrl + ":" + d.body.toolName
  }

  /** The schema's rule: snapshots come with upserts and only with them. */
  predicate WellFormed(d: Delta) { d.body.op.Upsert? <==> d.body.state.Some? }

  /** compareCatalogDelta; digests are compared as numbers, their only property used is their order. */
  function Compare(digest: Body -> nat, a: Delta, b: Delta): int {
    if a.body.revision != b.body.revision then a.body.revision - b.body.revision
    else if digest(a.body) == digest(b.body) then 0
    else if digest(a.body) > digest(b.body) then 1
    else -1
  }

  datatype Row = Row(payTo: string, network: string, resourceType: ResourceType, settlementTx: string, content: string, softDropped: bool)

  /** The tables catalog_resources and catalog_delta_state. */
  datatype Store = Store(rows: map<RowKey, Row>, states: map<string, Delta>)

  /** Answers of the signature check, the settlement proof and the live payment terms. */
  datatype Checks = Checks(verified: bool, settlement: bool, liveTerms: bool)

  datatype Status = Applied | Ignored | Rejected

  predicate SettlementTaken(rows: map<RowKey, Row>, rk: RowKey, tx: string) {
    exists k :: k in rows && k != rk && rows[k].settlementTx == tx
  }

  /** The row an accepted upsert leaves: an existing row keeps its resource type. */
  function Upserted(rows: map<RowKey, Row>, d: Delta): Row
    requires d.body.state.Some?
  {
    var s := d.body.state.value;
    Row(d.body.payTo, d.body.network,
        if RowOf(d) in rows then rows[RowOf(d)].resourceType else s.resourceType,
        s.settlementTx, s.content, false)
  }

  /** applyCatalogDelta as a whole. */
  function Apply(digest: Body -> nat, st: Store, d: Delta, c: Checks): (Store, Status) {
    var key, rk := KeyText(d), RowOf(d);
    if !c.verified || !WellFormed(d) then (st, Rejected)
    else if key in st.states && Compare(digest, d, st.states[key]) <= 0 then (st, Ignored)
    else if d.body.op.Upsert? then
      if !c.settlement || (d.body.state.value.resourceType.Http? && !c.liveTerms) then (st, Rejected)
      else if rk in st.rows && st.rows[rk].payTo != d.body.payTo then (st, Rejected)
      else if SettlementTaken(st.rows, rk, d.body.state.value.settlementTx) then (st, Rejected)
      else (Store(st.rows[rk := Upserted(st.rows, d)], st.states[key := d]), Applied)
    else
      var rows :=
        if rk in st.rows && st.rows[rk].payTo == d.body.payTo && st.rows[rk].network == d.body.network
        then st.rows[rk := st.rows[rk].(softDropped := true)] else st.rows;
      (Store(rows, st.states[key := d]), Applied)
  }

  /** The ingestion worker on its database; a rollback puts the tables back. */
  class IngestionWorker {
    const digest: Body -> nat
    var rows: map<RowKey, Row>
    var states: map<string, Delta>

    constructor (digest: Body -> nat)
      ensures this.digest == digest && Abs() == Store(map[], map[])
    {
      this.digest, this.rows, this.states := digest, map[], map[];
    }

    function Abs(): Store
      reads this
    {
      Store(rows, states)
    }

    method ApplyCatalogDelta(d: Delta, c: Checks) returns (status: Status)
      modifies this
      ensures (Abs(), status) == Apply(digest, old(Abs()), d, c)
    {
      if !c.verified || !WellFormed(d) { return Rejected; }
      var key, rk := KeyText(d), RowOf(d);
      if key in states && Compare(digest, d, states[key]) <= 0 { return Ignored; }
      if d.body.op.Upsert? {
        var s := d.body.state.value;
        if !c.settlement { return Rejected; }
        if s.resourceType.Http? && !c.liveTerms { return Rejected; }
        if rk in rows && rows[rk].payTo != d.body.payTo { return Rejected; }
        var before := rows;
        rows := rows[rk := Upserted(rows, d)];
        assert forall k :: k != rk ==> (k in rows <==> k in before) && (k in rows ==> rows[k] == before[k]);
        if SettlementTaken(rows, rk, s.settlementTx) {
          rows := before;
          return Rejected;
        }
      } else {
        if rk in rows && rows[rk].payTo == d.body.payTo && rows[rk].network == d.body.network {
          rows := rows[rk := rows[rk].(softDropped := true)];
        }
      }
      states := states[key := d];
      return Applied;
    }
  }
}
