/**
 * What the ingestion of one delta answers and writes, and that a delta the tables' guards rejected is
 * not remembered: it is applied when it comes again and nothing stands against it any more.
 */
module CatalogRedelivery {
  import opened CatalogDelta
  import opened CatalogConvergence

  /** The delta table already holds one of this key that is as great. */
  predicate Outdated(digest: Body -> nat, st: Store, d: Delta) {
    KeyText(d) in st.states && Compare(digest, d, st.states[KeyText(d)]) <= 0
  }

  /** Another owner has the resource, or another resource has the settlement. */
  predicate Guarded(st: Store, d: Delta)
    requires IsUpsert(d)
  {
    || (RowOf(d) in st.rows && st.rows[RowOf(d)].payTo != d.body.payTo)
    || exists k :: k in st.rows && k != RowOf(d) && st.rows[k].settlementTx == d.body.state.value.settlementTx
  }

  /** Exactly when each status is answered; outdated deltas are not looked at further. */
  lemma StatusExactly(digest: Body -> nat, st: Store, d: Delta, c: Checks)
    ensures var status := Apply(digest, st, d, c).1;
            var admitted := c.verified && (d.body.op.Upsert? <==> d.body.state.Some?);
            && (status.Ignored? <==> admitted && Outdated(digest, st, d))
            && (status.Rejected? <==>
                  || !admitted
                  || (!Outdated(digest, st, d) && IsUpsert(d)
                      && (!c.settlement || (d.body.state.value.resourceType.Http? && !c.liveTerms) || Guarded(st, d))))
            && (status.Applied? <==>
                  && admitted && !Outdated(digest, st, d)
                  && (IsUpsert(d) ==>
                        c.settlement && (d.body.state.value.resourceType.Http? ==> c.liveTerms) && !Guarded(st, d)))
  {
  }

  /** The row of an applied upsert: the snapshot's columns, but an existing row keeps its type. */
  predicate ShowsSnapshot(row: Row, d: Delta, rows: map<RowKey, Row>)
    requires IsUpsert(d)
  {
    var s := d.body.state.value;
    && row.payTo == d.body.payTo && row.network == d.body.network
    && row.settlementTx == s.settlementTx && row.content == s.content && !row.softDropped
    && row.resourceType == if RowOf(d) in rows then rows[RowOf(d)].resourceType else s.resourceType
  }

  /**
   * Exactly what is written. Unless a delta is applied, nothing. An applied delta is held under its key; an
   * upsert lists its resource, a revoke drops the row of its owner and network, and all else stays.
   */
  lemma WritesExactly(digest: Body -> nat, st: Store, d: Delta, c: Checks)
    ensures var (st', status) := Apply(digest, st, d, c);
            && (!status.Applied? ==> st' == st)
            && (status.Applied? ==>
                  && KeyText(d) in st'.states && st'.states[KeyText(d)] == d
                  && (forall k :: k != KeyText(d) ==> (k in st'.states <==> k in st.states))
                  && (forall k :: k != KeyText(d) && k in st.states ==> st'.states[k] == st.states[k])
                  && (forall k :: k != RowOf(d) ==> (k in st'.rows <==> k in st.rows))
                  && (forall k :: k != RowOf(d) && k in st.rows ==> st'.rows[k] == st.rows[k])
                  && (IsUpsert(d) ==> RowOf(d) in st'.rows && ShowsSnapshot(st'.rows[RowOf(d)], d, st.rows))
                  && (!IsUpsert(d) ==>
                        && (RowOf(d) in st'.rows <==> RowOf(d) in st.rows)
                        && (RowOf(d) in st.rows ==>
                              var row := st.rows[RowOf(d)];
                              st'.rows[RowOf(d)] == if row.payTo == d.body.payTo && row.network == d.body.network
                                                    then row.(softDropped := true) else row)))
  {
  }

  // ---- Over runs ----

  predicate AppliedAt(digest: Body -> nat, st: Store, es: seq<Delivery>, i: nat)
    requires i < |es|
  {
    Apply(digest, Run(digest, st, es[..i]), es[i].delta, es[i].checks).1.Applied?
  }

  lemma {:induction false} RunAppend(digest: Body -> nat, st: Store, es: seq<Delivery>, fs: seq<Delivery>)
    ensures Run(digest, st, es + fs) == Run(digest, Run(digest, st, es), fs)
    decreases |es|
  {
    if es == [] {
      assert es + fs == fs;
    } else {
      assert (es + fs)[1..] == es[1..] + fs;
      RunAppend(digest, Apply(digest, st, es[0].delta, es[0].checks).0, es[1..], fs);
    }
  }

  /** A delivery that is not applied might as well not have been made, whatever is delivered before and after. */
  lemma RejectionLeavesNoTrace(digest: Body -> nat, st: Store, es: seq<Delivery>, e: Delivery, fs: seq<Delivery>)
    requires !Apply(digest, Run(digest, st, es), e.delta, e.checks).1.Applied?
    ensures Run(digest, st, es + [e] + fs) == Run(digest, st, es + fs)
  {
    var one := [e];
    WritesExactly(digest, Run(digest, st, es), e.delta, e.checks);
    RunAppend(digest, st, es + one, fs);
    RunAppend(digest, st, es, one);
    RunAppend(digest, st, es, fs);
    assert one[0] == e && one[1..] == [];
    var next := Apply(digest, Run(digest, st, es), e.delta, e.checks).0;
    assert Run(digest, next, one[1..]) == next;
  }

  /** What the delta table holds was applied at some delivery. */
  lemma {:induction false} HeldWasApplied(digest: Body -> nat, es: seq<Delivery>, k: string)
    requires k in Run(digest, EMPTY, es).states
    ensures exists i :: 0 <= i < |es| && AppliedAt(digest, EMPTY, es, i)
                        && es[i].delta == Run(digest, EMPTY, es).states[k] && KeyText(es[i].delta) == k
    decreases |es|
  {
    if es != [] {
      var n := |es| - 1;
      var before, last := es[..n], [es[n]];
      assert es == before + last && last[0] == es[n] && last[1..] == [];
      RunAppend(digest, EMPTY, before, last);
      var st := Run(digest, EMPTY, before);
      var next := Apply(digest, st, es[n].delta, es[n].checks).0;
      assert Run(digest, next, last[1..]) == next;
      WritesExactly(digest, st, es[n].delta, es[n].checks);
      if k in st.states && next.states[k] == st.states[k] {
        HeldWasApplied(digest, before, k);
        var i :| 0 <= i < n && AppliedAt(digest, EMPTY, before, i) && before[i].delta == st.states[k] && KeyText(before[i].delta) == k;
        assert before[..i] == es[..i];
        assert AppliedAt(digest, EMPTY, es, i) && es[i].delta == before[i].delta;
      } else {
        assert AppliedAt(digest, EMPTY, es, n);
      }
    }
  }

  /**
   * However often an upsert was rejected in a run, because its checks failed or a guard stood against it,
   * it is applied and listed the next time it passes its checks, if no greater delta of its key was
   * delivered and no other owner and no other resource holds what it claims by then.
   */
  lemma RedeliveryApplies(digest: Body -> nat, es: seq<Delivery>, e: Delivery)
    requires Passing(e) && IsUpsert(e.delta)
    requires forall i :: 0 <= i < |es| && es[i].delta == e.delta ==> !AppliedAt(digest, EMPTY, es, i)
    requires forall i :: 0 <= i < |es| && es[i].delta != e.delta && KeyText(es[i].delta) == KeyText(e.delta) ==>
               Compare(digest, e.delta, es[i].delta) > 0
    requires !Guarded(Run(digest, EMPTY, es), e.delta)
    ensures var (st', status) := Apply(digest, Run(digest, EMPTY, es), e.delta, e.checks);
            && status.Applied? && RowOf(e.delta) in Visible(st')
            && ShowsSnapshot(Visible(st')[RowOf(e.delta)], e.delta, Run(digest, EMPTY, es).rows)
  {
    var st, k := Run(digest, EMPTY, es), KeyText(e.delta);
    if k in st.states {
      HeldWasApplied(digest, es, k);
      var i :| 0 <= i < |es| && AppliedAt(digest, EMPTY, es, i) && es[i].delta == st.states[k] && KeyText(es[i].delta) == k;
      assert es[i].delta != e.delta;
    }
    StatusExactly(digest, st, e.delta, e.checks);
    WritesExactly(digest, st, e.delta, e.checks);
  }
}
