/** When catalog replicas that receive the same deltas in different orders end up listing the same. */
module CatalogConvergence {
  import opened CatalogDelta

  datatype Delivery = Delivery(delta: Delta, checks: Checks)

  /** Every check the delta is subject to succeeds at this delivery. */
  predicate Passing(e: Delivery) {
    && e.checks.verified && WellFormed(e.delta)
    && (e.delta.body.op.Upsert? ==>
          e.checks.settlement && (e.delta.body.state.value.resourceType.Http? ==> e.checks.liveTerms))
  }

  function Run(digest: Body -> nat, st: Store, es: seq<Delivery>): Store
    decreases |es|
  {
    if es == [] then st else Run(digest, Apply(digest, st, es[0].delta, es[0].checks).0, es[1..])
  }

  /** The rows a search can return. */
  function Visible(st: Store): map<RowKey, Row> { map k | k in st.rows && !st.rows[k].softDropped :: st.rows[k] }

  /** The deltas of the deliveries that pass their checks. */
  function Valid(es: seq<Delivery>): set<Delta> { set e | e in es && Passing(e) :: e.delta }

  predicate IsUpsert(d: Delta) { d.body.state.Some? }

  // ---- The conditions under which order does not matter ----

  predicate SameSlot(a: Delta, b: Delta) {
    RowOf(a) == RowOf(b) && a.body.payTo == b.body.payTo && a.body.network == b.body.network
  }

  /** Two upserts that do not fight: one owner, network and type per resource, no settlement for two resources. */
  predicate Compatible(a: Delta, b: Delta) {
    IsUpsert(a) && IsUpsert(b) ==>
      && (RowOf(a) == RowOf(b) ==> SameSlot(a, b) && a.body.state.value.resourceType == b.body.state.value.resourceType)
      && (a.body.state.value.settlementTx == b.body.state.value.settlementTx ==> RowOf(a) == RowOf(b))
  }

  /** The concatenated key tells resources apart. */
  predicate KeysFaithful(a: Delta, b: Delta) { KeyText(a) == KeyText(b) ==> SameSlot(a, b) }

  /** Two upserts must not fight, and a revoke must not pass for the key of an upsert it outranks. */
  predicate Commute(digest: Body -> nat, a: Delta, b: Delta) {
    if IsUpsert(a) && IsUpsert(b) then Compatible(a, b) && KeysFaithful(a, b)
    else if IsUpsert(a) then KeysFaithful(a, b) || Compare(digest, a, b) > 0
    else if IsUpsert(b) then KeysFaithful(a, b) || Compare(digest, b, a) > 0
    else true
  }

  /** Every upsert of the resource commutes with every delta of the set. */
  ghost predicate CoherentAt(digest: Body -> nat, ds: set<Delta>, rk: RowKey) {
    forall a, b :: a in ds && b in ds && IsUpsert(a) && RowOf(a) == rk ==> Commute(digest, a, b)
  }

  ghost predicate CollisionFree(digest: Body -> nat) { forall a, b :: digest(a) == digest(b) ==> a == b }

  // ---- What the tables hold after some deltas ----

  /** The row a delta that won its key leaves visible. */
  function Listed(d: Delta): Row
    requires IsUpsert(d)
  {
    var s := d.body.state.value;
    Row(d.body.payTo, d.body.network, s.resourceType, s.settlementTx, s.content, false)
  }

  /** A row goes back to an upsert of its resource, its type to a possibly earlier one. */
  ghost predicate RowFrom(row: Row, rk: RowKey, seen: set<Delta>) {
    && (exists d :: d in seen && IsUpsert(d) && RowOf(d) == rk
                    && row == Listed(d).(softDropped := row.softDropped, resourceType := row.resourceType))
    && (exists d :: d in seen && IsUpsert(d) && RowOf(d) == rk && row.resourceType == d.body.state.value.resourceType)
  }

  ghost predicate RowsFrom(st: Store, seen: set<Delta>) { forall rk :: rk in st.rows ==> RowFrom(st.rows[rk], rk, seen) }

  /** The delta table holds the greatest delta of a key. */
  ghost predicate HoldsGreatest(digest: Body -> nat, st: Store, seen: set<Delta>, k: string) {
    && (forall d :: d in seen && KeyText(d) == k ==> k in st.states && Compare(digest, d, st.states[k]) <= 0)
    && (k in st.states ==> st.states[k] in seen && KeyText(st.states[k]) == k)
  }

  /** The greatest delta of the key decides the resource: an upsert is listed, a revoke leaves at most a dropped row. */
  ghost predicate ListsWinner(st: Store, k: string, rk: RowKey) {
    k in st.states ==>
      var d := st.states[k];
      if IsUpsert(d) then rk in st.rows && st.rows[rk] == Listed(d) else rk in st.rows ==> st.rows[rk].softDropped
  }

  ghost predicate Inv(digest: Body -> nat, st: Store, seen: set<Delta>, u: Delta) {
    RowsFrom(st, seen) && HoldsGreatest(digest, st, seen, KeyText(u)) && ListsWinner(st, KeyText(u), RowOf(u))
  }

  lemma RejectedChangesNothing(digest: Body -> nat, st: Store, e: Delivery)
    requires !Passing(e)
    ensures Apply(digest, st, e.delta, e.checks).0 == st
  {
  }

  lemma RowFromMore(row: Row, rk: RowKey, seen: set<Delta>, more: set<Delta>)
    requires RowFrom(row, rk, seen) && seen <= more
    ensures RowFrom(row, rk, more)
  {
  }

  lemma UpsertedFrom(rows: map<RowKey, Row>, seen: set<Delta>, d: Delta)
    requires IsUpsert(d) && (RowOf(d) in rows ==> RowFrom(rows[RowOf(d)], RowOf(d), seen))
    ensures RowFrom(Upserted(rows, d), RowOf(d), seen + {d})
  {
    var row, rk := Upserted(rows, d), RowOf(d);
    assert row == Listed(d).(softDropped := row.softDropped, resourceType := row.resourceType) && d in seen + {d};
    if rk in rows {
      var o :| o in seen && IsUpsert(o) && RowOf(o) == rk && rows[rk].resourceType == o.body.state.value.resourceType;
      assert o in seen + {d};
    }
  }

  /** Without changing it, dropping it or replacing it by a new upsert, no delta touches a row. */
  lemma RowChanges(digest: Body -> nat, st: Store, e: Delivery, rk: RowKey)
    requires rk in Apply(digest, st, e.delta, e.checks).0.rows
    ensures var row := Apply(digest, st, e.delta, e.checks).0.rows[rk];
            || (rk in st.rows && (row == st.rows[rk] || row == st.rows[rk].(softDropped := true)))
            || (rk == RowOf(e.delta) && IsUpsert(e.delta) && row == Upserted(st.rows, e.delta))
  {
  }

  /** Rows go back to upserts whatever deltas arrive. */
  lemma ApplyRowsFrom(digest: Body -> nat, st: Store, seen: set<Delta>, e: Delivery)
    requires RowsFrom(st, seen)
    ensures RowsFrom(Apply(digest, st, e.delta, e.checks).0, seen + {e.delta})
  {
    var st' := Apply(digest, st, e.delta, e.checks).0;
    forall rk | rk in st'.rows ensures RowFrom(st'.rows[rk], rk, seen + {e.delta}) { ApplyRowFrom(digest, st, seen, e, rk); }
  }

  lemma ApplyRowFrom(digest: Body -> nat, st: Store, seen: set<Delta>, e: Delivery, rk: RowKey)
    requires RowsFrom(st, seen) && rk in Apply(digest, st, e.delta, e.checks).0.rows
    ensures RowFrom(Apply(digest, st, e.delta, e.checks).0.rows[rk], rk, seen + {e.delta})
  {
    RowChanges(digest, st, e, rk);
    if rk in st.rows {
      DroppedFrom(st.rows[rk], rk, seen);
      RowFromMore(st.rows[rk], rk, seen, seen + {e.delta});
      RowFromMore(st.rows[rk].(softDropped := true), rk, seen, seen + {e.delta});
    }
    if rk == RowOf(e.delta) && IsUpsert(e.delta) { UpsertedFrom(st.rows, seen, e.delta); }
  }

  lemma DroppedFrom(row: Row, rk: RowKey, seen: set<Delta>)
    requires RowFrom(row, rk, seen)
    ensures RowFrom(row.(softDropped := true), rk, seen)
  {
    var d :| d in seen && IsUpsert(d) && RowOf(d) == rk
             && row == Listed(d).(softDropped := row.softDropped, resourceType := row.resourceType);
    var r := row.(softDropped := true);
    assert r == Listed(d).(softDropped := r.softDropped, resourceType := r.resourceType);
  }

  /** In a coherent resource an existing row has the owner, network and type of every upsert. */
  lemma RowMatches(digest: Body -> nat, st: Store, ds: set<Delta>, u: Delta)
    requires RowsFrom(st, ds) && u in ds && IsUpsert(u) && CoherentAt(digest, ds, RowOf(u)) && RowOf(u) in st.rows
    ensures var row := st.rows[RowOf(u)];
            && row.payTo == u.body.payTo && row.network == u.body.network
            && row.resourceType == u.body.state.value.resourceType
  {
    var rk := RowOf(u);
    var o :| o in ds && IsUpsert(o) && RowOf(o) == rk
             && st.rows[rk] == Listed(o).(softDropped := st.rows[rk].softDropped, resourceType := st.rows[rk].resourceType);
    var t :| t in ds && IsUpsert(t) && RowOf(t) == rk && st.rows[rk].resourceType == t.body.state.value.resourceType;
    assert Commute(digest, u, o) && Commute(digest, u, t);
  }

  lemma SettlementFree(digest: Body -> nat, st: Store, ds: set<Delta>, u: Delta)
    requires RowsFrom(st, ds) && u in ds && IsUpsert(u) && CoherentAt(digest, ds, RowOf(u))
    ensures !SettlementTaken(st.rows, RowOf(u), u.body.state.value.settlementTx)
  {
    forall k | k in st.rows && k != RowOf(u) ensures st.rows[k].settlementTx != u.body.state.value.settlementTx {
      var o :| o in ds && IsUpsert(o) && RowOf(o) == k
               && st.rows[k] == Listed(o).(softDropped := st.rows[k].softDropped, resourceType := st.rows[k].resourceType);
      assert Commute(digest, u, o);
    }
  }

  /** In a coherent resource nothing that passes its checks is rejected by the tables' own guards. */
  lemma NothingRejected(digest: Body -> nat, st: Store, ds: set<Delta>, e: Delivery)
    requires RowsFrom(st, ds) && e.delta in ds && CoherentAt(digest, ds, RowOf(e.delta)) && Passing(e)
    ensures !Apply(digest, st, e.delta, e.checks).1.Rejected?
    ensures IsUpsert(e.delta) ==> Upserted(st.rows, e.delta) == Listed(e.delta)
  {
    if IsUpsert(e.delta) {
      if RowOf(e.delta) in st.rows { RowMatches(digest, st, ds, e.delta); }
      SettlementFree(digest, st, ds, e.delta);
    }
  }

  /** A delta that is not rejected leaves the greatest delta of its key in the table. */
  lemma ApplyHoldsGreatest(digest: Body -> nat, st: Store, seen: set<Delta>, e: Delivery, k: string)
    requires HoldsGreatest(digest, st, seen, k)
    requires KeyText(e.delta) == k ==> !Apply(digest, st, e.delta, e.checks).1.Rejected?
    ensures HoldsGreatest(digest, Apply(digest, st, e.delta, e.checks).0, seen + {e.delta}, k)
  {
  }

  /** A delta with another key leaves the resource alone, a stranger's revoke of it included. */
  lemma OtherKeysLeaveRow(digest: Body -> nat, st: Store, ds: set<Delta>, u: Delta, e: Delivery)
    requires RowsFrom(st, ds) && u in ds && IsUpsert(u) && e.delta in ds && CoherentAt(digest, ds, RowOf(u)) && Passing(e)
    requires KeyText(e.delta) != KeyText(u)
    ensures var st' := Apply(digest, st, e.delta, e.checks).0;
            && (RowOf(u) in st'.rows <==> RowOf(u) in st.rows)
            && (RowOf(u) in st.rows ==> st'.rows[RowOf(u)] == st.rows[RowOf(u)])
  {
    if RowOf(e.delta) == RowOf(u) {
      assert Commute(digest, u, e.delta);
      if RowOf(u) in st.rows { RowMatches(digest, st, ds, u); }
    }
  }

  /** A revoke of another slot with this key is only applied while the resource has no row. */
  lemma ForeignRevokeFindsNoRow(digest: Body -> nat, st: Store, ds: set<Delta>, seen: set<Delta>, u: Delta, e: Delivery)
    requires seen <= ds && u in ds && IsUpsert(u) && e.delta in ds && CoherentAt(digest, ds, RowOf(u)) && Passing(e)
    requires Inv(digest, st, seen, u) && KeyText(e.delta) == KeyText(u) && !SameSlot(u, e.delta)
    ensures !IsUpsert(e.delta)
    ensures Apply(digest, st, e.delta, e.checks).1.Applied? ==> RowOf(u) !in st.rows
    ensures RowOf(u) in st.rows ==> Apply(digest, st, e.delta, e.checks).0 == st
    ensures RowOf(u) !in st.rows ==> RowOf(u) !in Apply(digest, st, e.delta, e.checks).0.rows
  {
    var d, k := e.delta, KeyText(u);
    assert Commute(digest, u, d);
    if RowOf(u) in st.rows {
      var o :| o in seen && IsUpsert(o) && RowOf(o) == RowOf(u)
               && st.rows[RowOf(u)] == Listed(o).(softDropped := st.rows[RowOf(u)].softDropped, resourceType := st.rows[RowOf(u)].resourceType);
      assert Commute(digest, u, o) && Commute(digest, o, d);
      assert KeyText(o) == k;
      assert Compare(digest, o, d) > 0 && Compare(digest, o, st.states[k]) <= 0;
    }
  }

  lemma ApplyInv(digest: Body -> nat, st: Store, ds: set<Delta>, seen: set<Delta>, u: Delta, e: Delivery)
    requires seen <= ds && u in ds && IsUpsert(u) && e.delta in ds && CoherentAt(digest, ds, RowOf(u)) && Passing(e)
    requires Inv(digest, st, seen, u)
    ensures Inv(digest, Apply(digest, st, e.delta, e.checks).0, seen + {e.delta}, u)
  {
    var d := e.delta;
    ApplyRowsFrom(digest, st, seen, e);
    forall rk | rk in st.rows ensures RowFrom(st.rows[rk], rk, ds) { RowFromMore(st.rows[rk], rk, seen, ds); }
    if KeyText(d) == KeyText(u) {
      assert Commute(digest, u, d);
      if SameSlot(u, d) {
        NothingRejected(digest, st, ds, e);
        if RowOf(u) in st.rows { RowMatches(digest, st, ds, u); }
      } else {
        ForeignRevokeFindsNoRow(digest, st, ds, seen, u, e);
      }
    } else {
      OtherKeysLeaveRow(digest, st, ds, u, e);
    }
    ApplyHoldsGreatest(digest, st, seen, e, KeyText(u));
  }

  // ---- Runs ----

  lemma {:induction false} RunInv(digest: Body -> nat, st: Store, ds: set<Delta>, seen: set<Delta>, u: Delta, es: seq<Delivery>)
    requires seen <= ds && Valid(es) <= ds && u in ds && IsUpsert(u) && CoherentAt(digest, ds, RowOf(u))
    requires Inv(digest, st, seen, u)
    ensures Inv(digest, Run(digest, st, es), seen + Valid(es), u)
    decreases |es|
  {
    if es == [] {
      assert seen + Valid(es) == seen;
    } else {
      var e := es[0];
      ValidSplit(es);
      if Passing(e) {
        ApplyInv(digest, st, ds, seen, u, e);
        RunInv(digest, Apply(digest, st, e.delta, e.checks).0, ds, seen + {e.delta}, u, es[1..]);
        assert seen + {e.delta} + Valid(es[1..]) == seen + Valid(es);
      } else {
        RejectedChangesNothing(digest, st, e);
        RunInv(digest, st, ds, seen, u, es[1..]);
      }
    }
  }

  lemma ValidSplit(es: seq<Delivery>)
    requires es != []
    ensures Valid(es) == (if Passing(es[0]) then {es[0].delta} else {}) + Valid(es[1..])
  {
    assert es == [es[0]] + es[1..];
  }

  lemma {:induction false} RunRowsFrom(digest: Body -> nat, st: Store, seen: set<Delta>, es: seq<Delivery>)
    requires RowsFrom(st, seen)
    ensures RowsFrom(Run(digest, st, es), seen + Valid(es))
    decreases |es|
  {
    if es == [] {
      assert seen + Valid(es) == seen;
    } else {
      var e := es[0];
      ValidSplit(es);
      if Passing(e) {
        ApplyRowsFrom(digest, st, seen, e);
        RunRowsFrom(digest, Apply(digest, st, e.delta, e.checks).0, seen + {e.delta}, es[1..]);
        assert seen + {e.delta} + Valid(es[1..]) == seen + Valid(es);
      } else {
        RejectedChangesNothing(digest, st, e);
        RunRowsFrom(digest, st, seen, es[1..]);
      }
    }
  }

  /** The delta table holds the greatest revoke of a key no upsert has. */
  lemma {:induction false} RunHoldsRevokes(digest: Body -> nat, st: Store, seen: set<Delta>, es: seq<Delivery>, k: string)
    requires forall d :: d in Valid(es) && KeyText(d) == k ==> !IsUpsert(d)
    requires HoldsGreatest(digest, st, seen, k)
    ensures HoldsGreatest(digest, Run(digest, st, es), seen + Valid(es), k)
    decreases |es|
  {
    if es == [] {
      assert seen + Valid(es) == seen;
    } else {
      var e := es[0];
      ValidSplit(es);
      if Passing(e) {
        assert e.delta in Valid(es);
        ApplyHoldsGreatest(digest, st, seen, e, k);
        RunHoldsRevokes(digest, Apply(digest, st, e.delta, e.checks).0, seen + {e.delta}, es[1..], k);
        assert seen + {e.delta} + Valid(es[1..]) == seen + Valid(es);
      } else {
        RejectedChangesNothing(digest, st, e);
        RunHoldsRevokes(digest, st, seen, es[1..], k);
      }
    }
  }

  const EMPTY: Store := Store(map[], map[])

  /** What a replica that starts empty holds of a coherent resource. */
  lemma ReplicaInv(digest: Body -> nat, es: seq<Delivery>, u: Delta)
    requires u in Valid(es) && IsUpsert(u) && CoherentAt(digest, Valid(es), RowOf(u))
    ensures Inv(digest, Run(digest, EMPTY, es), Valid(es), u)
  {
    RunInv(digest, EMPTY, Valid(es), {}, u, es);
    assert {} + Valid(es) == Valid(es);
  }

  lemma SameWinner(digest: Body -> nat, s: Store, t: Store, seen: set<Delta>, k: string)
    requires CollisionFree(digest) && HoldsGreatest(digest, s, seen, k) && HoldsGreatest(digest, t, seen, k)
    ensures k in s.states <==> k in t.states
    ensures k in s.states ==> s.states[k].body == t.states[k].body
  {
    if k in s.states && k in t.states {
      assert Compare(digest, s.states[k], t.states[k]) <= 0 && Compare(digest, t.states[k], s.states[k]) <= 0;
      assert digest(s.states[k].body) == digest(t.states[k].body);
    }
  }

  /** Two listings show the same of a resource. */
  predicate AgreeAt(m: map<RowKey, Row>, n: map<RowKey, Row>, rk: RowKey) {
    (rk in m <==> rk in n) && (rk in m ==> m[rk] == n[rk])
  }

  lemma UnlistedWithoutUpsert(digest: Body -> nat, es: seq<Delivery>, rk: RowKey)
    requires forall d :: d in Valid(es) && IsUpsert(d) ==> RowOf(d) != rk
    ensures rk !in Run(digest, EMPTY, es).rows
  {
    RunRowsFrom(digest, EMPTY, {}, es);
    assert {} + Valid(es) == Valid(es);
  }

  /**
   * Replicas that start empty and receive the same valid deltas, in any order and with any repetition,
   * list the same of every resource whose upserts commute, two at a time, with all these deltas. Nothing
   * is asked of other resources, of a stranger's revokes, or of deliveries that fail a check.
   */
  lemma ResourceConverges(digest: Body -> nat, es: seq<Delivery>, fs: seq<Delivery>, rk: RowKey)
    requires CollisionFree(digest) && Valid(es) == Valid(fs) && CoherentAt(digest, Valid(es), rk)
    ensures AgreeAt(Visible(Run(digest, EMPTY, es)), Visible(Run(digest, EMPTY, fs)), rk)
    ensures forall u :: u in Valid(es) && IsUpsert(u) && RowOf(u) == rk ==>
              var s, t, k := Run(digest, EMPTY, es).states, Run(digest, EMPTY, fs).states, KeyText(u);
              k in s && k in t && s[k].body == t[k].body
  {
    var s, t, seen := Run(digest, EMPTY, es), Run(digest, EMPTY, fs), Valid(es);
    forall u | u in seen && IsUpsert(u) && RowOf(u) == rk
      ensures KeyText(u) in s.states && KeyText(u) in t.states && s.states[KeyText(u)].body == t.states[KeyText(u)].body
      ensures AgreeAt(Visible(s), Visible(t), rk)
    {
      ReplicaInv(digest, es, u);
      ReplicaInv(digest, fs, u);
      SameWinner(digest, s, t, seen, KeyText(u));
    }
    if forall u :: u in seen && IsUpsert(u) ==> RowOf(u) != rk {
      UnlistedWithoutUpsert(digest, es, rk);
      UnlistedWithoutUpsert(digest, fs, rk);
    }
  }

  lemma AgreeEverywhere(m: map<RowKey, Row>, n: map<RowKey, Row>)
    requires forall rk :: AgreeAt(m, n, rk)
    ensures m == n
  {
    assert forall rk :: rk in m ==> AgreeAt(m, n, rk);
    assert forall rk :: rk in n ==> AgreeAt(m, n, rk);
  }

  /** When that holds of every resource, replicas list the same and agree on every winning delta up to its signature. */
  lemma Convergence(digest: Body -> nat, es: seq<Delivery>, fs: seq<Delivery>)
    requires CollisionFree(digest) && Valid(es) == Valid(fs) && forall rk :: CoherentAt(digest, Valid(es), rk)
    ensures var s, t := Run(digest, EMPTY, es), Run(digest, EMPTY, fs);
            && Visible(s) == Visible(t)
            && s.states.Keys == t.states.Keys && forall k :: k in s.states ==> s.states[k].body == t.states[k].body
  {
    var s, t, seen := Run(digest, EMPTY, es), Run(digest, EMPTY, fs), Valid(es);
    forall rk: RowKey ensures AgreeAt(Visible(s), Visible(t), rk) { ResourceConverges(digest, es, fs, rk); }
    AgreeEverywhere(Visible(s), Visible(t));
    forall k: string
      ensures (k in s.states <==> k in t.states) && (k in s.states ==> s.states[k].body == t.states[k].body)
    {
      KeyHeld(digest, es, k);
      KeyHeld(digest, fs, k);
      SameWinner(digest, s, t, seen, k);
    }
  }

  lemma KeyHeld(digest: Body -> nat, es: seq<Delivery>, k: string)
    requires forall rk :: CoherentAt(digest, Valid(es), rk)
    ensures HoldsGreatest(digest, Run(digest, EMPTY, es), Valid(es), k)
  {
    if u :| u in Valid(es) && KeyText(u) == k && IsUpsert(u) {
      ReplicaInv(digest, es, u);
    } else {
      RunHoldsRevokes(digest, EMPTY, {}, es, k);
      assert {} + Valid(es) == Valid(es);
    }
  }

  /** No valid delta of the same key has a higher revision, nor a greater digest at the same revision. */
  ghost predicate Wins(digest: Body -> nat, d: Delta, ds: set<Delta>) {
    d in ds && forall o :: o in ds && KeyText(o) == KeyText(d) ==>
      o.body.revision < d.body.revision || (o.body.revision == d.body.revision && digest(o.body) <= digest(d.body))
  }

  lemma WinnerIsHeld(digest: Body -> nat, st: Store, seen: set<Delta>, d: Delta)
    requires CollisionFree(digest) && HoldsGreatest(digest, st, seen, KeyText(d)) && Wins(digest, d, seen)
    ensures KeyText(d) in st.states && st.states[KeyText(d)].body == d.body
  {
    var w := st.states[KeyText(d)];
    assert w in seen && KeyText(w) == KeyText(d);
    assert digest(w.body) == digest(d.body);
  }

  /** A winning revoke that names the owner and network of the resource's upserts. */
  ghost predicate RevokedByOwner(digest: Body -> nat, ds: set<Delta>, rk: RowKey) {
    exists u, r :: u in ds && IsUpsert(u) && RowOf(u) == rk && SameSlot(u, r) && !IsUpsert(r) && Wins(digest, r, ds)
  }

  /**
   * What a replica lists of a coherent resource after any run of deliveries: exactly an upsert that no
   * valid delta of its key outranks by revision, digests breaking ties. A winning revoke by the owner
   * hides the resource, a revoke by anybody else does not.
   */
  lemma ListingIsTheWinners(digest: Body -> nat, es: seq<Delivery>, rk: RowKey)
    requires CollisionFree(digest) && CoherentAt(digest, Valid(es), rk)
    ensures var listing := Visible(Run(digest, EMPTY, es));
            && (rk in listing <==> exists d :: Wins(digest, d, Valid(es)) && IsUpsert(d) && RowOf(d) == rk)
            && (forall d :: Wins(digest, d, Valid(es)) && IsUpsert(d) && RowOf(d) == rk ==>
                  rk in listing && listing[rk] == Listed(d))
            && (RevokedByOwner(digest, Valid(es), rk) ==> rk !in listing)
  {
    var seen, st := Valid(es), Run(digest, EMPTY, es);
    forall d | Wins(digest, d, seen) && IsUpsert(d) && RowOf(d) == rk ensures rk in Visible(st) && Visible(st)[rk] == Listed(d) {
      ReplicaInv(digest, es, d);
      WinnerIsHeld(digest, st, seen, d);
    }
    if RevokedByOwner(digest, seen, rk) {
      var u, r :| u in seen && IsUpsert(u) && RowOf(u) == rk && SameSlot(u, r) && !IsUpsert(r) && Wins(digest, r, seen);
      ReplicaInv(digest, es, u);
      WinnerIsHeld(digest, st, seen, r);
    }
    if rk in Visible(st) { ListedHasWinner(digest, es, rk); }
  }

  lemma ListedHasWinner(digest: Body -> nat, es: seq<Delivery>, rk: RowKey)
    requires CoherentAt(digest, Valid(es), rk) && rk in Visible(Run(digest, EMPTY, es))
    ensures exists d :: Wins(digest, d, Valid(es)) && IsUpsert(d) && RowOf(d) == rk
  {
    var seen, st := Valid(es), Run(digest, EMPTY, es);
    if forall d :: d in seen && IsUpsert(d) ==> RowOf(d) != rk {
      UnlistedWithoutUpsert(digest, es, rk);
    } else {
      var u :| u in seen && IsUpsert(u) && RowOf(u) == rk;
      ReplicaInv(digest, es, u);
      var w := st.states[KeyText(u)];
      assert Commute(digest, u, w);
      assert Wins(digest, w, seen);
    }
  }

  // ---- Two deltas: exactly when their order does not matter ----

  function Both(digest: Body -> nat, a: Delivery, b: Delivery): map<RowKey, Row> {
    Visible(Run(digest, EMPTY, [a, b]))
  }

  lemma TwoSteps(digest: Body -> nat, a: Delivery, b: Delivery)
    ensures Both(digest, a, b)
            == Visible(Apply(digest, Apply(digest, EMPTY, a.delta, a.checks).0, b.delta, b.checks).0)
  {
    var s1 := Apply(digest, EMPTY, a.delta, a.checks).0;
    var s2 := Apply(digest, s1, b.delta, b.checks).0;
    var one := [b];
    assert [a, b][0] == a && [a, b][1..] == one && one[0] == b && one[1..] == [];
    assert Run(digest, s2, one[1..]) == s2;
    assert Run(digest, s1, one) == s2;
    assert Run(digest, EMPTY, [a, b]) == Run(digest, s1, one);
  }

  lemma FirstDelta(digest: Body -> nat, a: Delivery)
    requires Passing(a)
    ensures Apply(digest, EMPTY, a.delta, a.checks).0
            == Store(if IsUpsert(a.delta) then map[RowOf(a.delta) := Listed(a.delta)] else map[], map[KeyText(a.delta) := a.delta])
  {
  }

  /** The two orders of any two valid deltas list the same if and only if the deltas commute. */
  lemma PairConverges(digest: Body -> nat, a: Delivery, b: Delivery)
    requires CollisionFree(digest) && Passing(a) && Passing(b)
    ensures Both(digest, a, b) == Both(digest, b, a) <==> Commute(digest, a.delta, b.delta)
  {
    if Commute(digest, a.delta, b.delta) {
      assert Valid([a, b]) == {a.delta, b.delta} == Valid([b, a]);
      Convergence(digest, [a, b], [b, a]);
    } else if IsUpsert(a.delta) && IsUpsert(b.delta) {
      UpsertsDiverge(digest, a, b);
    } else if IsUpsert(a.delta) {
      ForeignRevoke(digest, a, b);
    } else {
      ForeignRevoke(digest, b, a);
    }
  }

  /** One upsert after another, when the row and settlement guards or the key stand between them. */
  lemma UpsertsDiverge(digest: Body -> nat, a: Delivery, b: Delivery)
    requires CollisionFree(digest) && Passing(a) && Passing(b) && IsUpsert(a.delta) && IsUpsert(b.delta)
    requires !(Compatible(a.delta, b.delta) && KeysFaithful(a.delta, b.delta))
    ensures Both(digest, a, b) != Both(digest, b, a)
  {
    TwoSteps(digest, a, b);
    TwoSteps(digest, b, a);
    FirstDelta(digest, a);
    FirstDelta(digest, b);
    if !KeysFaithful(a.delta, b.delta) {
      if Compare(digest, a.delta, b.delta) >= 0 { CollidingUpserts(digest, a, b); } else { CollidingUpserts(digest, b, a); }
    } else {
      IncompatibleUpserts(digest, a, b);
    }
  }

  lemma IncompatibleUpserts(digest: Body -> nat, a: Delivery, b: Delivery)
    requires Passing(a) && Passing(b) && IsUpsert(a.delta) && IsUpsert(b.delta)
    requires KeysFaithful(a.delta, b.delta) && !Compatible(a.delta, b.delta)
    ensures var s := Store(map[RowOf(a.delta) := Listed(a.delta)], map[KeyText(a.delta) := a.delta]);
            var t := Store(map[RowOf(b.delta) := Listed(b.delta)], map[KeyText(b.delta) := b.delta]);
            Visible(Apply(digest, s, b.delta, b.checks).0) != Visible(Apply(digest, t, a.delta, a.checks).0)
  {
    var ra, rb := RowOf(a.delta), RowOf(b.delta);
    var s := Apply(digest, Store(map[ra := Listed(a.delta)], map[KeyText(a.delta) := a.delta]), b.delta, b.checks).0;
    var t := Apply(digest, Store(map[rb := Listed(b.delta)], map[KeyText(b.delta) := b.delta]), a.delta, a.checks).0;
    if ra == rb {
      assert ra in Visible(s) && ra in Visible(t);
      assert Visible(s)[ra] == s.rows[ra] && Visible(t)[ra] == t.rows[ra];
    } else {
      assert map[ra := Listed(a.delta)][ra].settlementTx == b.delta.body.state.value.settlementTx;
      assert map[rb := Listed(b.delta)][rb].settlementTx == a.delta.body.state.value.settlementTx;
      assert ra in Visible(s) && ra !in Visible(t);
    }
  }

  /** Two resources with one key: the greater upsert first shuts the other out, the other way round both may stay. */
  lemma CollidingUpserts(digest: Body -> nat, a: Delivery, b: Delivery)
    requires CollisionFree(digest) && Passing(a) && Passing(b) && IsUpsert(a.delta) && IsUpsert(b.delta)
    requires !KeysFaithful(a.delta, b.delta) && Compare(digest, a.delta, b.delta) >= 0
    ensures var s := Store(map[RowOf(a.delta) := Listed(a.delta)], map[KeyText(a.delta) := a.delta]);
            var t := Store(map[RowOf(b.delta) := Listed(b.delta)], map[KeyText(b.delta) := b.delta]);
            Visible(Apply(digest, s, b.delta, b.checks).0) != Visible(Apply(digest, t, a.delta, a.checks).0)
  {
    var ra, rb := RowOf(a.delta), RowOf(b.delta);
    var s := Apply(digest, Store(map[ra := Listed(a.delta)], map[KeyText(a.delta) := a.delta]), b.delta, b.checks).0;
    var t := Apply(digest, Store(map[rb := Listed(b.delta)], map[KeyText(b.delta) := b.delta]), a.delta, a.checks).0;
    if ra == rb && a.delta.body.payTo == b.delta.body.payTo { SameKeySameNetwork(a.delta, b.delta); }
    assert s.rows == map[ra := Listed(a.delta)];
    assert ra in Visible(s) && Visible(s)[ra] == Listed(a.delta);
    assert rb in Visible(t) && Visible(t)[rb] == t.rows[rb];
    if ra == rb {
      assert t.rows[rb].payTo == b.delta.body.payTo;
    } else {
      assert rb !in Visible(s);
    }
  }

  lemma SameKeySameNetwork(a: Delta, b: Delta)
    requires KeyText(a) == KeyText(b) && RowOf(a) == RowOf(b) && a.body.payTo == b.body.payTo
    ensures a.body.network == b.body.network
  {
    assert |a.body.network| == |b.body.network|;
    assert a.body.network == KeyText(a)[..|a.body.network|] && b.body.network == KeyText(b)[..|b.body.network|];
  }

  /** A revoke with the key of an upsert of another slot only stops that upsert if it comes first and outranks it. */
  lemma ForeignRevoke(digest: Body -> nat, u: Delivery, r: Delivery)
    requires CollisionFree(digest) && Passing(u) && Passing(r) && IsUpsert(u.delta) && !IsUpsert(r.delta)
    requires !KeysFaithful(u.delta, r.delta)
    ensures Both(digest, u, r) == Both(digest, r, u) <==> Compare(digest, u.delta, r.delta) > 0
  {
    TwoSteps(digest, u, r);
    TwoSteps(digest, r, u);
    FirstDelta(digest, u);
    FirstDelta(digest, r);
    var ru := RowOf(u.delta);
    var s := Apply(digest, Store(map[ru := Listed(u.delta)], map[KeyText(u.delta) := u.delta]), r.delta, r.checks).0;
    var t := Apply(digest, Store(map[], map[KeyText(r.delta) := r.delta]), u.delta, u.checks).0;
    assert s.rows == map[ru := Listed(u.delta)] && ru in Visible(s);
    if Compare(digest, u.delta, r.delta) > 0 {
      assert t.rows == map[ru := Listed(u.delta)];
    } else {
      assert ru !in Visible(t);
    }
  }

  /** Two owners of one resource: whoever is heard first stays listed. */
  lemma TwoOwnersDiverge(digest: Body -> nat, a: Delivery, b: Delivery)
    requires CollisionFree(digest) && Passing(a) && Passing(b) && IsUpsert(a.delta) && IsUpsert(b.delta)
    requires RowOf(a.delta) == RowOf(b.delta) && a.delta.body.payTo != b.delta.body.payTo
    ensures Both(digest, a, b) != Both(digest, b, a)
  {
    PairConverges(digest, a, b);
  }

  // ---- When the concatenated key tells resources apart ----

  predicate NoColon(s: string) { ':' !in s }

  lemma {:induction false} SplitAtFirstColon(a: string, b: string, s: string, t: string)
    requires NoColon(a) && NoColon(b) && a + ":" + s == b + ":" + t
    ensures a == b && s == t
  {
    assert (a + ":" + s)[0] == if a == [] then ':' else a[0];
    assert (b + ":" + t)[0] == if b == [] then ':' else b[0];
    if a == [] {
      assert (a + ":" + s)[1..] == s && (b + ":" + t)[1..] == t;
    } else {
      assert (a + ":" + s)[1..] == a[1..] + ":" + s && (b + ":" + t)[1..] == b[1..] + ":" + t;
      SplitAtFirstColon(a[1..], b[1..], s, t);
    }
  }

  lemma {:induction false} SplitAtLastColon(s: string, t: string, a: string, b: string)
    requires NoColon(a) && NoColon(b) && s + ":" + a == t + ":" + b
    ensures s == t && a == b
  {
    var u, v := s + ":" + a, t + ":" + b;
    assert u[|u| - 1] == if a == [] then ':' else a[|a| - 1];
    assert v[|v| - 1] == if b == [] then ':' else b[|b| - 1];
    if a == [] {
      assert u[..|u| - 1] == s && v[..|v| - 1] == t;
    } else {
      assert u[..|u| - 1] == s + ":" + a[..|a| - 1] && v[..|v| - 1] == t + ":" + b[..|b| - 1];
      SplitAtLastColon(s, t, a[..|a| - 1], b[..|b| - 1]);
      assert a == a[..|a| - 1] + [a[|a| - 1]] && b == b[..|b| - 1] + [b[|b| - 1]];
    }
  }

  /** A network of the form namespace:reference. */
  predicate Caip2(network: string, namespace: string, reference: string) {
    network == namespace + ":" + reference && NoColon(namespace) && NoColon(reference)
  }

  /** The network is CAIP-2, the payee has no colon in it. */
  ghost predicate Regular(d: Delta) {
    NoColon(d.body.payTo) && exists namespace, reference :: Caip2(d.body.network, namespace, reference)
  }

  function UrlAndTool(d: Delta): string { d.body.resourceUrl + ":" + d.body.toolName }

  lemma KeyParts(d: Delta, namespace: string, reference: string)
    requires Caip2(d.body.network, namespace, reference)
    ensures KeyText(d) == namespace + ":" + (reference + ":" + (d.body.payTo + ":" + UrlAndTool(d)))
  {
  }

  /** Among regular deltas the key determines network and payee, but URL and tool name only together. */
  lemma KeyDetermines(a: Delta, b: Delta)
    requires Regular(a) && Regular(b)
    ensures KeyText(a) == KeyText(b) <==>
              a.body.network == b.body.network && a.body.payTo == b.body.payTo && UrlAndTool(a) == UrlAndTool(b)
  {
    var na, ra :| Caip2(a.body.network, na, ra);
    var nb, rb :| Caip2(b.body.network, nb, rb);
    KeyParts(a, na, ra);
    KeyParts(b, nb, rb);
    if KeyText(a) == KeyText(b) {
      var pa, pb := a.body.payTo + ":" + UrlAndTool(a), b.body.payTo + ":" + UrlAndTool(b);
      SplitAtFirstColon(na, nb, ra + ":" + pa, rb + ":" + pb);
      SplitAtFirstColon(ra, rb, pa, pb);
      SplitAtFirstColon(a.body.payTo, b.body.payTo, UrlAndTool(a), UrlAndTool(b));
    } else if a.body.network == b.body.network {
      SplitAtFirstColon(na, nb, ra, rb);
    }
  }

  /** The end of a string that holds a colon, from its last colon on. */
  lemma {:induction false} LastColon(s: string) returns (front: string, back: string)
    requires !NoColon(s)
    ensures s == front + ":" + back && NoColon(back)
  {
    var k := |s| - 1;
    if s[k] == ':' {
      front, back := s[..k], "";
    } else {
      front, back := LastColon(s[..k]);
      assert s == s[..k] + [s[k]] && s == front + ":" + (back + [s[k]]);
      back := back + [s[k]];
    }
  }

  /** Moving the front of a tool name over to the URL gives another resource with the same key. */
  lemma Impostor(a: Delta, url: string, tool: string)
    requires Regular(a) && url + ":" + tool == UrlAndTool(a) && tool != a.body.toolName
    ensures var b := a.(body := a.body.(resourceUrl := url, toolName := tool)); Regular(b) && !KeysFaithful(a, b)
  {
    var b := a.(body := a.body.(resourceUrl := url, toolName := tool));
    KeyDetermines(a, b);
  }

  /**
   * The key of a regular delta is its own among all regular deltas whose tool name has no colon exactly
   * if its own tool name has none.
   */
  lemma KeysFaithfulWhen(a: Delta)
    requires Regular(a)
    ensures (forall b :: Regular(b) && NoColon(b.body.toolName) ==> KeysFaithful(a, b)) <==> NoColon(a.body.toolName)
  {
    if NoColon(a.body.toolName) {
      forall b | Regular(b) && NoColon(b.body.toolName) ensures KeysFaithful(a, b) {
        if KeyText(a) == KeyText(b) {
          KeyDetermines(a, b);
          SplitAtLastColon(a.body.resourceUrl, b.body.resourceUrl, a.body.toolName, b.body.toolName);
        }
      }
    } else {
      var front, back := LastColon(a.body.toolName);
      assert a.body.resourceUrl + ":" + front + ":" + back == UrlAndTool(a);
      assert |back| < |a.body.toolName|;
      Impostor(a, a.body.resourceUrl + ":" + front, back);
    }
  }

  lemma OnlyColon(a: string, s: string, b: string, t: string)
    requires NoColon(a) && NoColon(s) && a + ":" + s == b + ":" + t
    ensures a == b && s == t
  {
    var u := a + ":" + s;
    assert u[|b|] == (b + ":" + t)[|b|] == ':';
    assert forall i :: 0 <= i < |u| && i != |a| ==> u[i] == if i < |a| then a[i] else s[i - |a| - 1];
    assert |a| == |b|;
    assert a == u[..|a|] && b == (b + ":" + t)[..|b|];
    assert s == u[|a| + 1..] && t == (b + ":" + t)[|b| + 1..];
  }

  /** With tool names unrestricted, exactly if its URL has none either: the key of no http resource is its own. */
  lemma KeysFaithfulToAll(a: Delta)
    requires Regular(a)
    ensures (forall b :: Regular(b) ==> KeysFaithful(a, b)) <==> NoColon(a.body.resourceUrl) && NoColon(a.body.toolName)
  {
    if !NoColon(a.body.toolName) {
      KeysFaithfulWhen(a);
    } else if NoColon(a.body.resourceUrl) {
      forall b | Regular(b) ensures KeysFaithful(a, b) {
        if KeyText(a) == KeyText(b) {
          KeyDetermines(a, b);
          OnlyColon(a.body.resourceUrl, a.body.toolName, b.body.resourceUrl, b.body.toolName);
        }
      }
    } else {
      var front, back := LastColon(a.body.resourceUrl);
      assert front + ":" + (back + ":" + a.body.toolName) == UrlAndTool(a);
      assert |back + ":" + a.body.toolName| > |a.body.toolName|;
      Impostor(a, front, back + ":" + a.body.toolName);
    }
  }

  /** A concrete pair: a port passes for the start of a tool name. */
  lemma KeysCollide(body: Body, signer: string, s: string, t: string)
    requires body.network == "stellar:testnet" && body.payTo == "G"
    ensures var a := Delta(body.(resourceUrl := "http://h", toolName := "80:t"), signer, s);
            var b := Delta(body.(resourceUrl := "http://h:80", toolName := "t"), signer, t);
            KeyText(a) == KeyText(b) && RowOf(a) != RowOf(b)
  {
    var p := "stellar:testnet" + ":" + "G" + ":";
    assert p + "http://h" + ":" + "80:t" == p + "http://h:80" + ":" + "t" by {
      assert "http://h" + ":" + "80:t" == "http://h:80" + ":" + "t";
      assert p + "http://h" + ":" + "80:t" == p + ("http://h" + ":" + "80:t");
    }
    assert |"http://h"| != |"http://h:80"|;
  }
}
