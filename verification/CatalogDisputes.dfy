/** Resources that several owners fight over: replicas may agree although the deltas do not commute. */
module CatalogDisputes {
  import opened CatalogDelta
  import opened CatalogConvergence

  /** Every upsert of the resource is outranked by a revoke of its owner, and nothing else passes for its key. */
  ghost predicate AllRevoked(digest: Body -> nat, ds: set<Delta>, rk: RowKey) {
    forall u :: u in ds && IsUpsert(u) && RowOf(u) == rk ==>
      && (exists r :: r in ds && !IsUpsert(r) && SameSlot(u, r) && Compare(digest, r, u) > 0)
      && forall d :: d in ds ==> KeysFaithful(u, d)
  }

  /** The key of the deltas that a row's owner issues for it. */
  function RowText(row: Row, rk: RowKey): string { row.network + ":" + row.payTo + ":" + rk.0 + ":" + rk.1 }

  /** The delta table holds deltas it was sent under their keys, and no revoke is ever missing from it. */
  ghost predicate HoldsRevokes(digest: Body -> nat, st: Store, seen: set<Delta>) {
    && (forall r :: r in seen && !IsUpsert(r) ==> KeyText(r) in st.states && Compare(digest, r, st.states[KeyText(r)]) <= 0)
    && (forall k :: k in st.states ==> st.states[k] in seen && KeyText(st.states[k]) == k)
  }

  /** The key of a visible row's owner is held by an upsert. */
  ghost predicate UpsertBehind(st: Store, rk: RowKey) {
    rk in Visible(st) ==> RowText(st.rows[rk], rk) in st.states && IsUpsert(st.states[RowText(st.rows[rk], rk)])
  }

  lemma ApplyHoldsRevokes(digest: Body -> nat, st: Store, seen: set<Delta>, e: Delivery)
    requires HoldsRevokes(digest, st, seen) && Passing(e)
    ensures HoldsRevokes(digest, Apply(digest, st, e.delta, e.checks).0, seen + {e.delta})
  {
    var d := e.delta;
    var st' := Apply(digest, st, d, e.checks).0;
    forall r | r in seen + {d} && !IsUpsert(r) ensures KeyText(r) in st'.states && Compare(digest, r, st'.states[KeyText(r)]) <= 0 {
      if r in seen { assert KeyText(r) in st.states && Compare(digest, r, st.states[KeyText(r)]) <= 0; }
    }
  }

  lemma RowOwner(st: Store, seen: set<Delta>, rk: RowKey) returns (u: Delta)
    requires RowsFrom(st, seen) && rk in st.rows
    ensures u in seen && IsUpsert(u) && RowOf(u) == rk && KeyText(u) == RowText(st.rows[rk], rk)
    ensures u.body.payTo == st.rows[rk].payTo && u.body.network == st.rows[rk].network
  {
    u :| u in seen && IsUpsert(u) && RowOf(u) == rk
         && st.rows[rk] == Listed(u).(softDropped := st.rows[rk].softDropped, resourceType := st.rows[rk].resourceType);
  }

  lemma ApplyUpsertBehind(digest: Body -> nat, st: Store, ds: set<Delta>, seen: set<Delta>, rk: RowKey, e: Delivery)
    requires seen <= ds && e.delta in ds && Passing(e) && AllRevoked(digest, ds, rk)
    requires RowsFrom(st, seen) && UpsertBehind(st, rk)
    ensures UpsertBehind(Apply(digest, st, e.delta, e.checks).0, rk)
  {
    var st' := Apply(digest, st, e.delta, e.checks).0;
    if rk in Visible(st') {
      RowChanges(digest, st, e, rk);
      if rk in Visible(st) && st'.rows[rk] == st.rows[rk] && !IsUpsert(e.delta) {
        var u := RowOwner(st, seen, rk);
        assert KeysFaithful(u, e.delta);
      }
    }
  }

  lemma {:induction false} RunHidesRevoked(digest: Body -> nat, st: Store, ds: set<Delta>, seen: set<Delta>, rk: RowKey, es: seq<Delivery>)
    requires seen <= ds && Valid(es) <= ds && AllRevoked(digest, ds, rk)
    requires RowsFrom(st, seen) && HoldsRevokes(digest, st, seen) && UpsertBehind(st, rk)
    ensures var st', all := Run(digest, st, es), seen + Valid(es);
            RowsFrom(st', all) && HoldsRevokes(digest, st', all) && UpsertBehind(st', rk)
    decreases |es|
  {
    if es == [] {
      assert seen + Valid(es) == seen;
    } else {
      var e := es[0];
      ValidSplit(es);
      if Passing(e) {
        ApplyRowsFrom(digest, st, seen, e);
        ApplyHoldsRevokes(digest, st, seen, e);
        ApplyUpsertBehind(digest, st, ds, seen, rk, e);
        RunHidesRevoked(digest, Apply(digest, st, e.delta, e.checks).0, ds, seen + {e.delta}, rk, es[1..]);
        assert seen + {e.delta} + Valid(es[1..]) == seen + Valid(es);
      } else {
        RejectedChangesNothing(digest, st, e);
        RunHidesRevoked(digest, st, ds, seen, rk, es[1..]);
      }
    }
  }

  /** An upsert that is outranked by a revoke the table holds is not what the table holds. */
  lemma HeldIsNotOutranked(digest: Body -> nat, st: Store, seen: set<Delta>, k: string)
    requires HoldsRevokes(digest, st, seen) && k in st.states
    ensures !exists r :: r in seen && !IsUpsert(r) && SameSlot(st.states[k], r) && Compare(digest, r, st.states[k]) > 0
  {
  }

  /** Then no replica lists the resource, however many owners fought over it and in whatever order they were heard. */
  lemma RevokedByAllIsHidden(digest: Body -> nat, es: seq<Delivery>, rk: RowKey)
    requires AllRevoked(digest, Valid(es), rk)
    ensures rk !in Visible(Run(digest, EMPTY, es))
  {
    var seen, st := Valid(es), Run(digest, EMPTY, es);
    RunHidesRevoked(digest, EMPTY, seen, {}, rk, es);
    assert {} + seen == seen;
    if rk in st.rows {
      var u := RowOwner(st, seen, rk);
      var k := KeyText(u);
      if k in st.states && IsUpsert(st.states[k]) {
        assert KeysFaithful(u, st.states[k]);
        HeldIsNotOutranked(digest, st, seen, k);
      }
    }
  }

  /**
   * An instance with four deltas: two owners each list a resource and revoke it. The upserts do not
   * commute, and yet all replicas agree.
   */
  lemma AgreeWithoutCommuting(digest: Body -> nat, a: Delta, ra: Delta, b: Delta, rb: Delta, es: seq<Delivery>, fs: seq<Delivery>)
    requires Valid(es) == Valid(fs) == {a, ra, b, rb} && IsUpsert(a) && IsUpsert(b) && !IsUpsert(ra) && !IsUpsert(rb)
    requires RowOf(a) == RowOf(b) && a.body.payTo != b.body.payTo && KeyText(a) != KeyText(b)
    requires SameSlot(a, ra) && SameSlot(b, rb) && ra.body.revision > a.body.revision && rb.body.revision > b.body.revision
    ensures !Commute(digest, a, b) && !CoherentAt(digest, Valid(es), RowOf(a))
    ensures AgreeAt(Visible(Run(digest, EMPTY, es)), Visible(Run(digest, EMPTY, fs)), RowOf(a))
  {
    assert a in Valid(es) && b in Valid(es);
    assert Compare(digest, ra, a) > 0 && Compare(digest, rb, b) > 0;
    RevokedByAllIsHidden(digest, es, RowOf(a));
    RevokedByAllIsHidden(digest, fs, RowOf(a));
  }
}
