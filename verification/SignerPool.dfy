/**
 * The settlement scheduler: signer accounts leased to one settlement at a time, waiters served in
 * order, signers with an uncertain settlement set aside until they are recovered.
 */
module SignerPool {
  import opened Options

  type Address = string
  type RequestId = nat

  /** A queued request; an empty preference means any signer will do. */
  datatype Waiter = Waiter(id: RequestId, preferred: Address)

  /** `leases` records which request holds which signer: the live lease objects. */
  datatype Pool = Pool(
    idle: seq<Address>, busy: set<Address>, quarantined: set<Address>,
    waiters: seq<Waiter>, leases: map<RequestId, Address>)

  datatype Acquired = Leased(address: Address) | Queued | NoSigners | SignerQuarantined | NotConfigured

  // ---- What each operation does ----

  function IndexOf(s: seq<Address>, a: Address): (k: int)
    ensures -1 <= k < |s|
    ensures k == -1 ==> a !in s
    ensures k >= 0 ==> s[k] == a
  {
    if s == [] then -1
    else if s[0] == a then 0
    else var k := IndexOf(s[1..], a); if k < 0 then -1 else k + 1
  }

  function RemoveAt<T>(s: seq<T>, k: nat): seq<T>
    requires k < |s|
  {
    s[..k] + s[k + 1..]
  }

  /** The signer a request takes from the idle list, if any, and the list left. */
  function TakeIdle(idle: seq<Address>, preferred: Address): (Option<Address>, seq<Address>) {
    var k := if preferred != "" then IndexOf(idle, preferred) else 0;
    if k < 0 || k >= |idle| then (None, idle) else (Some(idle[k]), RemoveAt(idle, k))
  }

  predicate Eligible(w: Waiter, idle: seq<Address>) { w.preferred == "" || w.preferred in idle }

  function FirstEligible(waiters: seq<Waiter>, idle: seq<Address>): (k: int)
    ensures -1 <= k < |waiters|
    ensures k == -1 ==> forall w :: w in waiters ==> !Eligible(w, idle)
    ensures k >= 0 ==> Eligible(waiters[k], idle) && forall i :: 0 <= i < k ==> !Eligible(waiters[i], idle)
  {
    if waiters == [] then -1
    else if Eligible(waiters[0], idle) then 0
    else var k := FirstEligible(waiters[1..], idle); if k < 0 then -1 else k + 1
  }

  /** The position of the waiter processQueue serves next, or -1. */
  function NextWaiter(idle: seq<Address>, waiters: seq<Waiter>): (k: int)
    ensures -1 <= k < |waiters|
    ensures k >= 0 ==> idle != [] && Eligible(waiters[k], idle) && forall i :: 0 <= i < k ==> !Eligible(waiters[i], idle)
  {
    if idle == [] || waiters == [] then -1 else FirstEligible(waiters, idle)
  }

  /** A dequeued waiter, its signer leased to it. */
  function AfterGrant(p: Pool, k: nat, a: Address): Pool
    requires k < |p.waiters|
  {
    p.(idle := TakeIdle(p.idle, p.waiters[k].preferred).1,
       waiters := RemoveAt(p.waiters, k),
       busy := p.busy + {a},
       leases := p.leases[p.waiters[k].id := a])
  }

  /** processQueue: grants idle signers to waiters until none can be served. */
  function Drain(p: Pool): Pool
    decreases |p.waiters|
  {
    var k := NextWaiter(p.idle, p.waiters);
    if k < 0 then p
    else
      var (taken, idle) := TakeIdle(p.idle, p.waiters[k].preferred);
      if taken.None? || taken.value == "" then p.(idle := idle, waiters := RemoveAt(p.waiters, k))
      else Drain(AfterGrant(p, k, taken.value))
  }

  function Acquire(p: Pool, id: RequestId, preferred: Address): (Pool, Acquired) {
    if p.idle == [] && p.busy == {} && p.quarantined == {} then (p, NoSigners)
    else if preferred != "" && preferred in p.quarantined then (p, SignerQuarantined)
    else if preferred != "" && preferred !in p.idle && preferred !in p.busy then (p, NotConfigured)
    else
      var (taken, idle) := TakeIdle(p.idle, preferred);
      if taken.Some? then
        (p.(idle := idle, busy := p.busy + {taken.value}, leases := p.leases[id := taken.value]), Leased(taken.value))
      else (p.(waiters := p.waiters + [Waiter(id, preferred)]), Queued)
  }

  /** The end of withSigner: quarantine if the result asks for it, then release and serve the queue. */
  function Finish(p: Pool, id: RequestId, quarantine: bool): Pool {
    if id !in p.leases then p
    else
      var a := p.leases[id];
      Drain(p.(idle := if quarantine then p.idle else p.idle + [a],
               busy := p.busy - {a},
               quarantined := if quarantine then p.quarantined + {a} else p.quarantined,
               leases := p.leases - {id}))
  }

  function WaiterIndex(waiters: seq<Waiter>, id: RequestId): (k: int)
    ensures -1 <= k < |waiters|
    ensures k == -1 ==> forall w :: w in waiters ==> w.id != id
    ensures k >= 0 ==> waiters[k].id == id
  {
    if waiters == [] then -1
    else if waiters[0].id == id then 0
    else var k := WaiterIndex(waiters[1..], id); if k < 0 then -1 else k + 1
  }

  /** The queue timer of a waiter that is still queued. */
  function Timeout(p: Pool, id: RequestId): Pool {
    var k := WaiterIndex(p.waiters, id);
    if k < 0 then p else p.(waiters := RemoveAt(p.waiters, k))
  }

  function Recover(p: Pool, a: Address): Pool {
    if a !in p.quarantined then p
    else
      Drain(p.(quarantined := p.quarantined - {a},
               idle := if a in p.idle || a in p.busy then p.idle else p.idle + [a]))
  }

  function Without(s: seq<Address>, gone: set<Address>): (r: seq<Address>)
    ensures forall a :: a in r <==> a in s && a !in gone
  {
    if s == [] then []
    else if s[0] in gone then Without(s[1..], gone)
    else [s[0]] + Without(s[1..], gone)
  }

  /** setSigners: refused while something is in flight; does not serve the queue. */
  function SetSigners(p: Pool, addresses: seq<Address>): Option<Pool> {
    if p.busy != {} then None
    else
      var kept := set a | a in p.quarantined && a in addresses;
      Some(p.(quarantined := kept, idle := Without(addresses, kept)))
  }

  // ---- The invariant ----

  ghost predicate Distinct<T>(s: seq<T>) { forall i, j :: 0 <= i < j < |s| ==> s[i] != s[j] }

  ghost function Configured(p: Pool): set<Address> { (set a | a in p.idle) + p.busy + p.quarantined }

  /** Every signer is idle, busy or quarantined, once; every busy signer has exactly one lease. */
  ghost predicate Consistent(p: Pool) {
    && Distinct(p.idle) && "" !in Configured(p)
    && (forall a :: a in p.idle ==> a !in p.busy && a !in p.quarantined)
    && p.busy !! p.quarantined
    && p.leases.Values == p.busy
    && (forall i, j :: i in p.leases && j in p.leases && p.leases[i] == p.leases[j] ==> i == j)
    && DistinctIds(p.waiters)
    && (forall w :: w in p.waiters ==> w.id !in p.leases)
  }

  /** No waiter could use a signer that is idle. */
  ghost predicate Served(p: Pool) { p.idle != [] ==> forall w :: w in p.waiters ==> !Eligible(w, p.idle) }

  ghost predicate Valid(p: Pool) { Consistent(p) && Served(p) }

  lemma TakeIdleTakes(idle: seq<Address>, preferred: Address)
    requires idle != [] && (preferred == "" || preferred in idle) && Distinct(idle)
    ensures var (taken, rest) := TakeIdle(idle, preferred);
            && taken.Some? && taken.value in idle && (preferred != "" ==> taken.value == preferred)
            && Distinct(rest) && forall a :: a in rest <==> a in idle && a != taken.value
  {
    var k := if preferred != "" then IndexOf(idle, preferred) else 0;
    RemoveAtContents(idle, k);
  }

  lemma RemoveAtContents<T>(s: seq<T>, k: nat)
    requires k < |s| && Distinct(s)
    ensures Distinct(RemoveAt(s, k)) && forall x :: x in RemoveAt(s, k) <==> x in s && x != s[k]
  {
    var r := RemoveAt(s, k);
    forall x | x in s && x != s[k] ensures x in r {
      var i :| 0 <= i < |s| && s[i] == x;
      assert r[if i < k then i else i - 1] == x;
    }
    assert forall i :: 0 <= i < |r| ==> r[i] == s[if i < k then i else i + 1];
  }

  lemma AddLease(leases: map<RequestId, Address>, id: RequestId, a: Address)
    requires id !in leases
    ensures leases[id := a].Values == leases.Values + {a}
  {
    var added := leases[id := a];
    assert added[id] == a;
    forall i | i in leases ensures leases[i] in added.Values { assert added[i] == leases[i]; }
  }

  lemma EndLease(leases: map<RequestId, Address>, id: RequestId)
    requires id in leases && forall i, j :: i in leases && j in leases && leases[i] == leases[j] ==> i == j
    ensures (leases - {id}).Values == leases.Values - {leases[id]}
  {
    var ended := leases - {id};
    forall b | b in leases.Values - {leases[id]} ensures b in ended.Values {
      var i :| i in leases && leases[i] == b;
      assert ended[i] == b;
    }
  }

  /** One grant keeps everything but the claim that the queue is served. */
  lemma GrantKeeps(p: Pool, k: nat)
    requires Consistent(p) && k < |p.waiters| && p.idle != [] && Eligible(p.waiters[k], p.idle)
    ensures var taken := TakeIdle(p.idle, p.waiters[k].preferred).0;
            && taken.Some? && taken.value != "" && taken.value in p.idle
            && Consistent(AfterGrant(p, k, taken.value)) && Configured(AfterGrant(p, k, taken.value)) == Configured(p)
  {
    var w := p.waiters[k];
    TakeIdleTakes(p.idle, w.preferred);
    RemoveAtContents(p.waiters, k);
    var (taken, idle) := TakeIdle(p.idle, w.preferred);
    assert taken.value in Configured(p);
    AddLease(p.leases, w.id, taken.value);
    var rest := RemoveAt(p.waiters, k);
    assert forall i :: 0 <= i < |rest| ==> rest[i] == p.waiters[if i < k then i else i + 1];
  }

  /** The first grant of a draining queue: taken by the earliest waiter that can use an idle signer. */
  lemma DrainStep(p: Pool) returns (k: nat, a: Address, q: Pool)
    requires Consistent(p) && NextWaiter(p.idle, p.waiters) >= 0
    ensures k == NextWaiter(p.idle, p.waiters) && a in p.idle && q == AfterGrant(p, k, a)
    ensures TakeIdle(p.idle, p.waiters[k].preferred).0 == Some(a)
    ensures Consistent(q) && Configured(q) == Configured(p)
    ensures Drain(p) == Drain(q)
    ensures p.waiters[k].id !in p.leases
  {
    k := NextWaiter(p.idle, p.waiters);
    GrantKeeps(p, k);
    a := TakeIdle(p.idle, p.waiters[k].preferred).0.value;
    q := AfterGrant(p, k, a);
  }

  /** Serving the queue ends with nobody servable, and loses no signer. */
  lemma {:induction false} DrainKeeps(p: Pool)
    requires Consistent(p)
    ensures Valid(Drain(p)) && Configured(Drain(p)) == Configured(p) && Drain(p).quarantined == p.quarantined
    decreases |p.waiters|
  {
    if NextWaiter(p.idle, p.waiters) >= 0 {
      var k, a, q := DrainStep(p);
      DrainKeeps(q);
    }
  }

  /** Serving the queue leaves the leases that were already held alone. */
  lemma {:induction false} DrainKeepsLeases(p: Pool, id: RequestId)
    requires Consistent(p) && id in p.leases
    ensures id in Drain(p).leases && Drain(p).leases[id] == p.leases[id]
    decreases |p.waiters|
  {
    if NextWaiter(p.idle, p.waiters) >= 0 {
      var k, a, q := DrainStep(p);
      DrainKeepsLeases(q, id);
    }
  }

  /** Nobody but a waiter gets a lease from the queue. */
  lemma {:induction false} DrainLeasesWaiters(p: Pool, id: RequestId)
    requires Consistent(p) && Fresh(p, id)
    ensures id !in Drain(p).leases
    decreases |p.waiters|
  {
    if NextWaiter(p.idle, p.waiters) >= 0 {
      var k, a, q := DrainStep(p);
      assert forall w :: w in q.waiters ==> w in p.waiters;
      DrainLeasesWaiters(q, id);
    }
  }

  // ---- Every operation keeps the invariant ----

  /** A request id that is neither queued nor holding a signer. */
  ghost predicate Fresh(p: Pool, id: RequestId) {
    id !in p.leases && forall w :: w in p.waiters ==> w.id != id
  }

  lemma AcquireConsistent(p: Pool, id: RequestId, preferred: Address)
    requires Consistent(p) && Fresh(p, id)
    ensures var (q, r) := Acquire(p, id, preferred);
            && Consistent(q) && Configured(q) == Configured(p) && q.quarantined == p.quarantined
            && (r.Leased? ==>
                  && r.address in p.idle && q.leases == p.leases[id := r.address] && q.waiters == p.waiters
                  && (preferred != "" ==> r.address == preferred)
                  && forall a :: a in q.idle <==> a in p.idle && a != r.address)
  {
    var (q, r) := Acquire(p, id, preferred);
    if r.Leased? {
      TakeIdleTakes(p.idle, preferred);
      AddLease(p.leases, id, r.address);
      assert r.address in Configured(p);
    }
  }

  /**
   * A new request keeps the pool valid, and gets a signer only if no queued request could use it:
   * every waiter insists on a different signer.
   */
  lemma AcquireKeeps(p: Pool, id: RequestId, preferred: Address)
    requires Valid(p) && Fresh(p, id)
    ensures var (q, r) := Acquire(p, id, preferred);
            && Valid(q) && Configured(q) == Configured(p) && q.quarantined == p.quarantined
            && (r.Leased? ==>
                  && r.address in p.idle && q.leases == p.leases[id := r.address]
                  && (preferred != "" ==> r.address == preferred)
                  && forall w :: w in p.waiters ==> w.preferred != "" && w.preferred != r.address)
            && (r.Queued? ==> q == p.(waiters := p.waiters + [Waiter(id, preferred)]))
            && (!r.Leased? && !r.Queued? ==> q == p)
  {
    AcquireConsistent(p, id, preferred);
    var (q, r) := Acquire(p, id, preferred);
    if r.Leased? {
      forall w | w in p.waiters ensures w.preferred != "" && w.preferred != r.address { assert !Eligible(w, p.idle); }
    }
  }

  /** Which answer a new request gets. */
  lemma AcquireOutcome(p: Pool, id: RequestId, preferred: Address)
    requires Valid(p)
    ensures var r := Acquire(p, id, preferred).1;
            && (r.NoSigners? <==> Configured(p) == {})
            && (r.SignerQuarantined? <==> preferred != "" && preferred in p.quarantined)
            && (r.NotConfigured? <==> Configured(p) != {} && preferred != "" && preferred !in Configured(p))
            && (r.Queued? <==> Configured(p) != {} && if preferred == "" then p.idle == [] else preferred in p.busy)
            && (r.Leased? <==> p.idle != [] && Eligible(Waiter(id, preferred), p.idle))
  {
    if p.idle != [] { assert p.idle[0] in Configured(p); }
    if preferred in p.idle || preferred in p.busy || preferred in p.quarantined { assert preferred in Configured(p); }
  }

  /**
   * Without a preference the signer that has been idle longest is taken, and the rest keep their order;
   * with one, that signer leaves its place and the rest keep theirs. Released signers go to the end
   * (FinishReleases), so signers take turns.
   */
  lemma TakesOldest(p: Pool, id: RequestId, preferred: Address)
    requires Valid(p) && Acquire(p, id, preferred).1.Leased?
    ensures var (q, r) := Acquire(p, id, preferred);
            exists k :: 0 <= k < |p.idle| && r.address == p.idle[k] && q.idle == p.idle[..k] + p.idle[k + 1..]
                        && (preferred == "" ==> k == 0) && (preferred != "" ==> p.idle[k] == preferred)
  {
    var k := if preferred != "" then IndexOf(p.idle, preferred) else 0;
    assert 0 <= k < |p.idle| && RemoveAt(p.idle, k) == p.idle[..k] + p.idle[k + 1..];
  }

  /** A finished request gives its signer up, to quarantine or to the pool; every other lease stays. */
  lemma FinishReleases(p: Pool, id: RequestId, quarantine: bool)
    requires Consistent(p) && id in p.leases
    ensures var q := Finish(p, id, quarantine);
            && id !in q.leases
            && (forall r :: r in p.leases && r != id ==> r in q.leases && q.leases[r] == p.leases[r])
            && (p.waiters == [] && !quarantine ==> q.idle == p.idle + [p.leases[id]] && q.waiters == [])
  {
    var a := p.leases[id];
    assert a in p.leases.Values;
    var q := Pool(if quarantine then p.idle else p.idle + [a], p.busy - {a},
                  if quarantine then p.quarantined + {a} else p.quarantined, p.waiters, p.leases - {id});
    EndLease(p.leases, id);
    DrainLeasesWaiters(q, id);
    forall r | r in p.leases && r != id ensures r in Drain(q).leases && Drain(q).leases[r] == p.leases[r] {
      DrainKeepsLeases(q, r);
    }
  }

  lemma FinishKeeps(p: Pool, id: RequestId, quarantine: bool)
    requires Consistent(p)
    ensures Consistent(Finish(p, id, quarantine)) && (Valid(p) || id in p.leases ==> Valid(Finish(p, id, quarantine)))
    ensures Configured(Finish(p, id, quarantine)) == Configured(p)
    ensures Finish(p, id, quarantine).quarantined
            == p.quarantined + if quarantine && id in p.leases then {p.leases[id]} else {}
  {
    if id in p.leases {
      var a := p.leases[id];
      assert a in p.leases.Values;
      var q := Pool(if quarantine then p.idle else p.idle + [a], p.busy - {a},
                    if quarantine then p.quarantined + {a} else p.quarantined, p.waiters, p.leases - {id});
      EndLease(p.leases, id);
      DrainKeeps(q);
    }
  }

  ghost predicate DistinctIds(waiters: seq<Waiter>) {
    forall i, j :: 0 <= i < j < |waiters| ==> waiters[i].id != waiters[j].id
  }

  lemma TimeoutKeeps(p: Pool, id: RequestId)
    requires Consistent(p)
    ensures Consistent(Timeout(p, id)) && (Valid(p) ==> Valid(Timeout(p, id)))
    ensures Timeout(p, id) == p.(waiters := Timeout(p, id).waiters)
    ensures forall w :: w in Timeout(p, id).waiters <==> w in p.waiters && w.id != id
  {
    var k := WaiterIndex(p.waiters, id);
    if k >= 0 {
      RemoveAtContents(p.waiters, k);
      var left := RemoveAt(p.waiters, k);
      assert forall i :: 0 <= i < |left| ==> left[i] == p.waiters[if i < k then i else i + 1];
    }
  }

  /** s is what is left of t when some of it is struck out. */
  predicate Subsequence(s: seq<Address>, t: seq<Address>) {
    if s == [] then true
    else if t == [] then false
    else if s[0] == t[0] then Subsequence(s[1..], t[1..])
    else Subsequence(s, t[1..])
  }

  lemma {:induction false} SubsequenceSkips(s: seq<Address>, t: seq<Address>, a: Address)
    requires Subsequence(s, t) && a !in s
    ensures Subsequence(s, [a] + t)
  {
    assert ([a] + t)[1..] == t;
  }

  lemma {:induction false} WithoutInOrder(s: seq<Address>, gone: set<Address>)
    ensures Subsequence(Without(s, gone), s)
  {
    if s != [] {
      WithoutInOrder(s[1..], gone);
      var rest := Without(s[1..], gone);
      if s[0] in gone {
        assert s[0] !in rest;
        SubsequenceSkips(rest, s[1..], s[0]);
        assert [s[0]] + s[1..] == s;
      } else {
        assert ([s[0]] + rest)[1..] == rest;
      }
    }
  }

  lemma {:induction false} WithoutDistinct(s: seq<Address>, gone: set<Address>)
    requires Distinct(s)
    ensures Distinct(Without(s, gone))
  {
    if s != [] {
      WithoutDistinct(s[1..], gone);
      var r := Without(s[1..], gone);
      assert forall i :: 0 <= i < |r| ==> r[i] in r;
      assert forall a :: a in s[1..] ==> a != s[0];
    }
  }

  /**
   * Replacing the signer set succeeds exactly when nothing is leased, quarantined signers stay so, and
   * every signer is still idle or quarantined once. It does not serve the queue: afterwards somebody
   * could be served exactly if a waiter is eligible for the new idle list.
   */
  lemma SetSignersKeeps(p: Pool, addresses: seq<Address>)
    requires Consistent(p) && Distinct(addresses) && "" !in addresses
    ensures SetSigners(p, addresses).Some? <==> p.leases == map[]
    ensures SetSigners(p, addresses).Some? ==>
              var q := SetSigners(p, addresses).value;
              && Consistent(q) && q.waiters == p.waiters && Configured(q) == (set a | a in addresses)
              && q.quarantined == p.quarantined * (set a | a in addresses)
              && Subsequence(q.idle, addresses)
              && (Valid(q) <==> forall w :: w in p.waiters ==> !CouldRun(w, addresses, p.quarantined))
  {
    if p.leases == map[] {
      assert p.leases.Values == {};
      WithoutDistinct(addresses, set a | a in p.quarantined && a in addresses);
      WithoutInOrder(addresses, set a | a in p.quarantined && a in addresses);
      var q := SetSigners(p, addresses).value;
      forall w | w in p.waiters ensures CouldRun(w, addresses, p.quarantined) <==> q.idle != [] && Eligible(w, q.idle) {
        if q.idle != [] { assert q.idle[0] in q.idle; }
      }
    } else {
      var id :| id in p.leases;
      assert p.leases[id] in p.leases.Values;
    }
  }

  /** One of the addresses that are not quarantined would do for the waiter. */
  ghost predicate CouldRun(w: Waiter, addresses: seq<Address>, quarantined: set<Address>) {
    exists a :: a in addresses && a !in quarantined && (w.preferred == "" || w.preferred == a)
  }

  /** A scheduler starts valid, all its signers idle. */
  lemma StartsValid(addresses: seq<Address>)
    requires Distinct(addresses) && "" !in addresses
    ensures var p := Pool(addresses, {}, {}, [], map[]); Valid(p) && Configured(p) == (set a | a in addresses)
  {
  }

  lemma RecoverKeeps(p: Pool, a: Address)
    requires Consistent(p)
    ensures Consistent(Recover(p, a)) && (Valid(p) || a in p.quarantined ==> Valid(Recover(p, a)))
    ensures Configured(Recover(p, a)) == Configured(p)
    ensures Recover(p, a).quarantined == p.quarantined - {a}
    ensures p.waiters == [] && a in p.quarantined ==> Recover(p, a).idle == p.idle + [a]
    ensures forall r :: r in p.leases ==> r in Recover(p, a).leases && Recover(p, a).leases[r] == p.leases[r]
  {
    if a in p.quarantined {
      var q := p.(quarantined := p.quarantined - {a}, idle := if a in p.idle || a in p.busy then p.idle else p.idle + [a]);
      DrainKeeps(q);
      forall r | r in p.leases ensures r in Drain(q).leases && Drain(q).leases[r] == p.leases[r] { DrainKeepsLeases(q, r); }
    }
  }

  // ---- The order waiters are served in ----

  /** The grants processQueue makes, in order; it stops for good if it would hand out an empty address. */
  function Grants(idle: seq<Address>, waiters: seq<Waiter>): seq<(Waiter, Address)>
    decreases |waiters|
  {
    var k := NextWaiter(idle, waiters);
    if k < 0 then []
    else
      var (taken, rest) := TakeIdle(idle, waiters[k].preferred);
      if taken.None? || taken.value == "" then []
      else [(waiters[k], taken.value)] + Grants(rest, RemoveAt(waiters, k))
  }

  function Waiters(grants: seq<(Waiter, Address)>): seq<Waiter> {
    if grants == [] then [] else [grants[0].0] + Waiters(grants[1..])
  }

  /** Addresses are distinct and nonempty, waiters have their own ids. */
  ghost predicate Orderly(idle: seq<Address>, waiters: seq<Waiter>) {
    Distinct(idle) && "" !in idle && DistinctIds(waiters)
  }

  lemma RemoveAtMultiset<T>(s: seq<T>, k: nat)
    requires k < |s|
    ensures multiset(s) == multiset{s[k]} + multiset(RemoveAt(s, k))
  {
    assert s == s[..k] + [s[k]] + s[k + 1..];
  }

  /** The first grant: the earliest waiter that can use an idle signer gets it. */
  lemma FirstGrant(idle: seq<Address>, waiters: seq<Waiter>) returns (k: nat, a: Address, rest: seq<Address>)
    requires Orderly(idle, waiters) && NextWaiter(idle, waiters) >= 0
    ensures k == NextWaiter(idle, waiters) && TakeIdle(idle, waiters[k].preferred) == (Some(a), rest)
    ensures a in idle && a != "" && Orderly(rest, RemoveAt(waiters, k))
    ensures Grants(idle, waiters) == [(waiters[k], a)] + Grants(rest, RemoveAt(waiters, k))
    ensures forall i :: 0 <= i < k ==> waiters[i].preferred != "" && waiters[i].preferred != a
  {
    k := NextWaiter(idle, waiters);
    TakeIdleTakes(idle, waiters[k].preferred);
    a := TakeIdle(idle, waiters[k].preferred).0.value;
    rest := TakeIdle(idle, waiters[k].preferred).1;
    var left := RemoveAt(waiters, k);
    assert forall i :: 0 <= i < |left| ==> left[i] == waiters[if i < k then i else i + 1];
  }

  /** No waiter is dropped: each one is granted a signer or still queued. */
  lemma {:induction false} NobodyDropped(p: Pool)
    requires Consistent(p)
    ensures multiset(p.waiters) == multiset(Drain(p).waiters) + multiset(Waiters(Grants(p.idle, p.waiters)))
    decreases |p.waiters|
  {
    if NextWaiter(p.idle, p.waiters) >= 0 {
      var k, a, q := DrainStep(p);
      var grants := Grants(q.idle, q.waiters);
      NobodyDropped(q);
      RemoveAtMultiset(p.waiters, k);
      assert ([(p.waiters[k], a)] + grants)[1..] == grants;
    }
  }

  lemma GrantsStep(p: Pool, k: nat, a: Address, q: Pool)
    requires Consistent(p) && k == NextWaiter(p.idle, p.waiters) && q == AfterGrant(p, k, a)
    requires TakeIdle(p.idle, p.waiters[k].preferred).0 == Some(a) && a in p.idle
    ensures Grants(p.idle, p.waiters) == [(p.waiters[k], a)] + Grants(q.idle, q.waiters)
    ensures q.leases == p.leases[p.waiters[k].id := a]
  {
    assert a in Configured(p);
  }

  /** Every grant becomes a lease. */
  lemma {:induction false} GrantsBecomeLeases(p: Pool, g: nat)
    requires Consistent(p) && g < |Grants(p.idle, p.waiters)|
    ensures var (w, a) := Grants(p.idle, p.waiters)[g];
            w.id in Drain(p).leases && Drain(p).leases[w.id] == a
    decreases |p.waiters|
  {
    var k, a, q := DrainStep(p);
    GrantsStep(p, k, a, q);
    if g == 0 {
      DrainKeepsLeases(q, p.waiters[k].id);
    } else {
      GrantsBecomeLeases(q, g - 1);
    }
  }

  /** A waiter that insists on a signer is granted that one. */
  lemma {:induction false} GrantsRespectPreference(idle: seq<Address>, waiters: seq<Waiter>, g: nat)
    requires Orderly(idle, waiters) && g < |Grants(idle, waiters)|
    ensures var (w, a) := Grants(idle, waiters)[g];
            a in idle && (w.preferred != "" ==> a == w.preferred)
    decreases |waiters|
  {
    var k, a, rest := FirstGrant(idle, waiters);
    TakeIdleTakes(idle, waiters[k].preferred);
    if g > 0 { GrantsRespectPreference(rest, RemoveAt(waiters, k), g - 1); }
  }

  /** Waiter u stands in the queue before waiter w. */
  ghost predicate Ahead(waiters: seq<Waiter>, u: Waiter, w: Waiter) {
    exists i, j :: 0 <= i < j < |waiters| && waiters[i] == u && waiters[j] == w
  }

  lemma AheadAfterRemoval(waiters: seq<Waiter>, k: nat, u: Waiter, w: Waiter)
    requires k < |waiters| && Ahead(RemoveAt(waiters, k), u, w)
    ensures Ahead(waiters, u, w)
  {
    var i, j :| 0 <= i < j < |RemoveAt(waiters, k)| && RemoveAt(waiters, k)[i] == u && RemoveAt(waiters, k)[j] == w;
    assert waiters[if i < k then i else i + 1] == u && waiters[if j < k then j else j + 1] == w;
  }

  lemma AheadBeforeRemoval(waiters: seq<Waiter>, k: nat, u: Waiter, w: Waiter)
    requires k < |waiters| && Ahead(waiters, u, w) && u != waiters[k] && w != waiters[k]
    ensures Ahead(RemoveAt(waiters, k), u, w)
  {
    var i, j :| 0 <= i < j < |waiters| && waiters[i] == u && waiters[j] == w;
    var r := RemoveAt(waiters, k);
    assert r[if i < k then i else i - 1] == u && r[if j < k then j else j - 1] == w;
  }

  /** Those still queued keep their order. */
  lemma {:induction false} OrderKept(p: Pool, u: Waiter, w: Waiter)
    requires Consistent(p) && Ahead(Drain(p).waiters, u, w)
    ensures Ahead(p.waiters, u, w)
    decreases |p.waiters|
  {
    if NextWaiter(p.idle, p.waiters) >= 0 {
      var k, a, q := DrainStep(p);
      OrderKept(q, u, w);
      AheadAfterRemoval(p.waiters, k, u, w);
    }
  }

  ghost predicate ServedBefore(grants: seq<(Waiter, Address)>, g: nat, u: Waiter) {
    exists e :: 0 <= e < g && e < |grants| && grants[e].0 == u
  }

  lemma ServedLater(first: (Waiter, Address), grants: seq<(Waiter, Address)>, g: nat, u: Waiter)
    ensures ServedBefore(grants, g, u) ==> ServedBefore([first] + grants, g + 1, u)
  {
    if ServedBefore(grants, g, u) {
      var e :| 0 <= e < g && e < |grants| && grants[e].0 == u;
      assert ([first] + grants)[e + 1].0 == u;
    }
  }

  lemma AheadOfFirst(waiters: seq<Waiter>, k: nat, u: Waiter)
    requires k < |waiters| && DistinctIds(waiters) && Ahead(waiters, u, waiters[k])
    ensures exists i :: 0 <= i < k && waiters[i] == u
  {
    var i, j :| 0 <= i < j < |waiters| && waiters[i] == u && waiters[j] == waiters[k];
    assert j == k;
  }

  lemma {:induction false} GrantedWereQueued(idle: seq<Address>, waiters: seq<Waiter>, g: nat)
    requires Orderly(idle, waiters) && g < |Grants(idle, waiters)|
    ensures Grants(idle, waiters)[g].0 in waiters
    decreases |waiters|
  {
    var k, a, rest := FirstGrant(idle, waiters);
    if g > 0 {
      GrantedWereQueued(rest, RemoveAt(waiters, k), g - 1);
      RemoveAtContents(waiters, k);
    }
  }

  ghost predicate NotOvertaken(grants: seq<(Waiter, Address)>, g: nat, u: Waiter)
    requires g < |grants|
  {
    ServedBefore(grants, g, u) || (u.preferred != "" && u.preferred != grants[g].1)
  }

  lemma NotOvertakenLater(first: (Waiter, Address), grants: seq<(Waiter, Address)>, g: nat, u: Waiter)
    requires g < |grants| && NotOvertaken(grants, g, u)
    ensures NotOvertaken([first] + grants, g + 1, u)
  {
    ServedLater(first, grants, g, u);
  }

  /**
   * Nobody is overtaken: when a waiter gets a signer, everyone who stood before it and was not served
   * earlier insists on some other signer.
   */
  lemma EarliestServed(idle: seq<Address>, waiters: seq<Waiter>, g: nat, u: Waiter)
    requires Orderly(idle, waiters) && g < |Grants(idle, waiters)| && Ahead(waiters, u, Grants(idle, waiters)[g].0)
    ensures NotOvertaken(Grants(idle, waiters), g, u)
  {
    EarliestServedIn(idle, waiters, Grants(idle, waiters), g, u);
  }

  lemma {:induction false} EarliestServedIn(idle: seq<Address>, waiters: seq<Waiter>, grants: seq<(Waiter, Address)>, g: nat, u: Waiter)
    requires Orderly(idle, waiters) && grants == Grants(idle, waiters) && g < |grants| && Ahead(waiters, u, grants[g].0)
    ensures NotOvertaken(grants, g, u)
    decreases |waiters|
  {
    if g == 0 {
      FirstNotOvertaking(idle, waiters, u);
    } else {
      var k, a, rest := FirstGrant(idle, waiters);
      var left := RemoveAt(waiters, k);
      var more := Grants(rest, left);
      assert grants == [(waiters[k], a)] + more && grants[g] == more[g - 1];
      if u != waiters[k] {
        StillAhead(rest, waiters, k, more, g - 1, u);
        EarliestServedIn(rest, left, more, g - 1, u);
      }
      LaterGrant(waiters[k], a, more, g - 1, u);
    }
  }

  lemma LaterGrant(first: Waiter, a: Address, grants: seq<(Waiter, Address)>, g: nat, u: Waiter)
    requires g < |grants| && (u == first || NotOvertaken(grants, g, u))
    ensures NotOvertaken([(first, a)] + grants, g + 1, u)
  {
    if u == first {
      assert ([(first, a)] + grants)[0].0 == u;
    } else {
      NotOvertakenLater((first, a), grants, g, u);
    }
  }

  lemma FirstNotOvertaking(idle: seq<Address>, waiters: seq<Waiter>, u: Waiter)
    requires Orderly(idle, waiters) && Grants(idle, waiters) != [] && Ahead(waiters, u, Grants(idle, waiters)[0].0)
    ensures u.preferred != "" && u.preferred != Grants(idle, waiters)[0].1
  {
    var k, a, rest := FirstGrant(idle, waiters);
    AheadOfFirst(waiters, k, u);
  }

  /** Behind the first grant, those who stood before a later one still do. */
  lemma StillAhead(rest: seq<Address>, waiters: seq<Waiter>, k: nat, more: seq<(Waiter, Address)>, g: nat, u: Waiter)
    requires k < |waiters| && DistinctIds(waiters) && Orderly(rest, RemoveAt(waiters, k)) && u != waiters[k]
    requires more == Grants(rest, RemoveAt(waiters, k)) && g < |more| && Ahead(waiters, u, more[g].0)
    ensures Ahead(RemoveAt(waiters, k), u, more[g].0)
  {
    GrantedWereQueued(rest, RemoveAt(waiters, k), g);
    RemoveAtContents(waiters, k);
    AheadBeforeRemoval(waiters, k, u, more[g].0);
  }

  // ---- Whole runs ----

  datatype Op =
    | AcquireOp(id: RequestId, preferred: Address)
    | FinishOp(finished: RequestId, quarantine: bool)
    | TimeoutOp(waiting: RequestId)
    | RecoverOp(address: Address)
    | SetSignersOp(addresses: seq<Address>)

  /** One step; a request id that is still in use cannot start again, signer addresses are distinct. */
  ghost function Next(p: Pool, op: Op): Pool {
    match op
    case AcquireOp(id, preferred) => if Fresh(p, id) then Acquire(p, id, preferred).0 else p
    case FinishOp(id, quarantine) => Finish(p, id, quarantine)
    case TimeoutOp(id) => Timeout(p, id)
    case RecoverOp(a) => Recover(p, a)
    case SetSignersOp(addresses) =>
      if Distinct(addresses) && "" !in addresses && SetSigners(p, addresses).Some? then SetSigners(p, addresses).value else p
  }

  ghost function Run(p: Pool, ops: seq<Op>): Pool
    decreases |ops|
  {
    if ops == [] then p else Run(Next(p, ops[0]), ops[1..])
  }

  /**
   * However requests interleave, every signer is idle, busy or quarantined once and held by one request
   * at most; and while the signer set is not replaced, no signer is lost or added and no waiter could
   * use an idle one.
   */
  lemma {:induction false} RunKeeps(p: Pool, ops: seq<Op>)
    requires Consistent(p)
    ensures Consistent(Run(p, ops))
    ensures (forall op :: op in ops ==> !op.SetSignersOp?) ==>
              Configured(Run(p, ops)) == Configured(p) && (Valid(p) ==> Valid(Run(p, ops)))
    decreases |ops|
  {
    if ops != [] {
      NextKeeps(p, ops[0]);
      RunKeeps(Next(p, ops[0]), ops[1..]);
      assert ops == [ops[0]] + ops[1..];
    }
  }

  /** The step leaves a quarantined signer in quarantine. */
  predicate KeepsParked(op: Op, a: Address) { op != RecoverOp(a) && (op.SetSignersOp? ==> a in op.addresses) }

  lemma NextKeeps(p: Pool, op: Op)
    requires Consistent(p)
    ensures Consistent(Next(p, op))
    ensures !op.SetSignersOp? ==> Configured(Next(p, op)) == Configured(p) && (Valid(p) ==> Valid(Next(p, op)))
    ensures forall a :: a in p.quarantined && KeepsParked(op, a) ==> a in Next(p, op).quarantined
  {
    match op
    case AcquireOp(id, preferred) =>
      if Fresh(p, id) {
        AcquireConsistent(p, id, preferred);
        if Valid(p) { AcquireKeeps(p, id, preferred); }
      }
    case FinishOp(id, quarantine) => FinishKeeps(p, id, quarantine);
    case TimeoutOp(id) => TimeoutKeeps(p, id);
    case RecoverOp(a) => RecoverKeeps(p, a);
    case SetSignersOp(addresses) => if Distinct(addresses) && "" !in addresses { SetSignersKeeps(p, addresses); }
  }

  lemma {:induction false} QuarantineLasts(p: Pool, ops: seq<Op>, a: Address)
    requires Consistent(p) && a in p.quarantined && forall op :: op in ops ==> KeepsParked(op, a)
    ensures a in Run(p, ops).quarantined
    decreases |ops|
  {
    if ops != [] {
      NextKeeps(p, ops[0]);
      assert ops == [ops[0]] + ops[1..];
      QuarantineLasts(Next(p, ops[0]), ops[1..], a);
    }
  }

  /** Once a settlement ends uncertain, its signer serves nobody until somebody recovers it or drops it from the set. */
  lemma UncertainSignerUnused(p: Pool, id: RequestId, ops: seq<Op>)
    requires Consistent(p) && id in p.leases && forall op :: op in ops ==> KeepsParked(op, p.leases[id])
    ensures var q := Run(Finish(p, id, true), ops);
            && p.leases[id] in q.quarantined && p.leases[id] !in q.idle
            && forall r :: r in q.leases ==> q.leases[r] != p.leases[id]
  {
    var a := p.leases[id];
    FinishKeeps(p, id, true);
    QuarantineLasts(Finish(p, id, true), ops, a);
    RunKeeps(Finish(p, id, true), ops);
    var q := Run(Finish(p, id, true), ops);
    forall r | r in q.leases ensures q.leases[r] != a { assert q.leases[r] in q.leases.Values; }
  }
}
