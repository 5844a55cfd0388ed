/** The registry of enduring parent owners (celln-warden/src/parent_registry.rs):
    what each owner is charged, and when the charge is given back.

    Stopping and reaping take an owner out under the lock, join its thread with the
    lock released, and record the outcome in a second critical section. `joining`
    holds the incarnations between the two. */
module ParentRegistry {
  import opened Totals

  const U32: nat := 0x1_0000_0000
  const U64: nat := 0x1_0000_0000_0000_0000

  datatype Status =
    | Initializing | Ready | TurnActive | ContextLost | Stopping | Stopped | TeardownUncertain

  datatype Parent = Parent(
    principal: string, owned: bool, status: Status, reservedBytes: nat, reservedEgress: nat)

  datatype Parents = Parents(
    entries: map<string, Parent>, reservedBytes: nat, reservedEgress: nat, draining: bool,
    joining: set<string>)

  datatype Charge = Charge(owners: nat, memoryBytes: nat, egressSlots: nat)

  const NO_PARENTS := Parents(map[], 0, 0, false, {})

  // ------------------------------------------------------------------ charges

  ghost function Bytes(entries: map<string, Parent>): nat {
    Total(map id <- entries :: entries[id].reservedBytes)
  }

  ghost function Egress(entries: map<string, Parent>): nat {
    Total(map id <- entries :: entries[id].reservedEgress)
  }

  function Charged(entries: map<string, Parent>): set<string> {
    set id <- entries | entries[id].reservedBytes != 0
  }

  /** `reserved_capacity`. */
  function ReservedCapacity(p: Parents): Charge {
    Charge(|Charged(p.entries)|, p.reservedBytes, p.reservedEgress)
  }

  // --------------------------------------------------------------- operations

  datatype Limits = Limits(maxEntries: nat, memoryBytes: nat)

  /** `insert_admitted`; `spawns` tells whether the owner thread could start. */
  function Inserted(p: Parents, limits: Limits, principal: string, id: string,
                    bytes: nat, egress: nat, spawns: bool): (Parents, bool) {
    if principal == "" || |principal| > 512 || bytes == 0 then (p, false)
    else if p.draining || id in p.entries then (p, false)
    else if p.reservedBytes + bytes >= U64 then (p, false)
    else if |p.entries| >= limits.maxEntries || p.reservedBytes + bytes > limits.memoryBytes then (p, false)
    else if p.reservedEgress + egress >= U32 || !spawns then (p, false)
    else
      (p.(reservedBytes := p.reservedBytes + bytes, reservedEgress := p.reservedEgress + egress,
          entries := p.entries[id := Parent(principal, true, Initializing, bytes, egress)]),
       true)
  }

  datatype Stopping = NotFound | AlreadyStopped | Pending | Took

  /** The first critical section of `stop`. */
  function StopBegun(p: Parents, principal: string, id: string): (Parents, Stopping) {
    if id !in p.entries || p.entries[id].principal != principal then (p, NotFound)
    else
      var e := p.entries[id];
      if e.status.Stopped? || (e.status.ContextLost? && e.reservedBytes == 0) then (p, AlreadyStopped)
      else if !e.owned then (p, Pending)
      else (Taken(p, {id}), Took)
  }

  /** The first critical section of `reap_finished`: `finished` are the owners
      whose threads have exited. */
  function Taken(p: Parents, finished: set<string>): Parents {
    var ids := set id <- p.entries | id in finished && p.entries[id].owned;
    p.(entries := map id <- p.entries ::
         if id in ids then p.entries[id].(owned := false, status := Status.Stopping) else p.entries[id],
       joining := p.joining + ids)
  }

  /** The second critical section of both: a confirmed join releases the whole
      charge, anything else keeps it. */
  function Joined(p: Parents, id: string, joined: bool, status: Status): Parents
    requires id in p.joining && id in p.entries
    requires p.entries[id].reservedBytes <= p.reservedBytes && p.entries[id].reservedEgress <= p.reservedEgress
  {
    var e := p.entries[id];
    if joined then
      p.(entries := p.entries[id := e.(status := status, reservedBytes := 0, reservedEgress := 0)],
         reservedBytes := p.reservedBytes - e.reservedBytes,
         reservedEgress := p.reservedEgress - e.reservedEgress,
         joining := p.joining - {id})
    else
      p.(entries := p.entries[id := e.(status := TeardownUncertain)], joining := p.joining - {id})
  }

  // --------------------------------------------------------------- invariants

  ghost predicate EntryInv(p: Parents, id: string)
    requires id in p.entries
  {
    var e := p.entries[id];
    && (e.reservedBytes == 0 ==> e.reservedEgress == 0)
    && (e.owned ==> e.reservedBytes != 0 && id !in p.joining && !e.status.Stopped? && !e.status.ContextLost?)
    && (id in p.joining ==> e.reservedBytes != 0)
  }

  /** The counters are the sums of what the entries hold; an owner is in one
      place at a time, and charged wherever it is. */
  ghost predicate ParentsInv(p: Parents) {
    && p.reservedBytes == Bytes(p.entries)
    && p.reservedEgress == Egress(p.entries)
    && p.joining <= p.entries.Keys
    && forall id <- p.entries :: EntryInv(p, id)
  }

  lemma ChargesPut(entries: map<string, Parent>, id: string, e: Parent)
    ensures id !in entries ==>
              && Bytes(entries[id := e]) == Bytes(entries) + e.reservedBytes
              && Egress(entries[id := e]) == Egress(entries) + e.reservedEgress
    ensures id in entries ==>
              && Bytes(entries[id := e]) + entries[id].reservedBytes == Bytes(entries) + e.reservedBytes
              && Egress(entries[id := e]) + entries[id].reservedEgress == Egress(entries) + e.reservedEgress
  {
    var b := map o <- entries :: entries[o].reservedBytes;
    var g := map o <- entries :: entries[o].reservedEgress;
    var next := entries[id := e];
    assert (map o <- next :: next[o].reservedBytes) == b[id := e.reservedBytes];
    assert (map o <- next :: next[o].reservedEgress) == g[id := e.reservedEgress];
    TotalPuts(b, id, e.reservedBytes);
    TotalPuts(g, id, e.reservedEgress);
    if id in entries {
      TotalTakes(b, id);
      TotalTakes(g, id);
    }
  }

  /** No counter can underflow: every charge is part of the sums. */
  lemma ChargeWithinSums(p: Parents, id: string)
    requires ParentsInv(p) && id in p.entries
    ensures p.entries[id].reservedBytes <= p.reservedBytes
    ensures p.entries[id].reservedEgress <= p.reservedEgress
  {
    TotalTakes(map o <- p.entries :: p.entries[o].reservedBytes, id);
    TotalTakes(map o <- p.entries :: p.entries[o].reservedEgress, id);
  }

  /** A successful insertion charges exactly one new owner, its bytes and its
      broker slots; a refused one charges nothing. */
  lemma InsertCharges(p: Parents, limits: Limits, principal: string, id: string,
                      bytes: nat, egress: nat, spawns: bool)
    requires ParentsInv(p)
    ensures var (p', ok) := Inserted(p, limits, principal, id, bytes, egress, spawns);
            && ParentsInv(p')
            && (!ok ==> p' == p)
            && (ok ==>
                  && id !in p.entries && bytes != 0
                  && p'.reservedBytes == p.reservedBytes + bytes <= limits.memoryBytes
                  && p'.reservedEgress == p.reservedEgress + egress
                  && |Charged(p'.entries)| == |Charged(p.entries)| + 1
                  && p'.entries == p.entries[id := Parent(principal, true, Initializing, bytes, egress)])
  {
    var (p', ok) := Inserted(p, limits, principal, id, bytes, egress, spawns);
    if ok {
      ChargesPut(p.entries, id, p'.entries[id]);
      assert Charged(p'.entries) == Charged(p.entries) + {id};
      assert id !in p.joining;
      forall o <- p'.entries ensures EntryInv(p', o) {
        assert o != id ==> EntryInv(p, o);
      }
    }
  }

  /** Of the owners asked for, those still owned are taken out to be joined; the rest
      stay as they are. */
  ghost predicate TookIff(p: Parents, p': Parents, id: string, asked: bool)
    requires id in p.entries && id in p'.entries
  {
    if asked && p.entries[id].owned
    then id in p'.joining && p'.entries[id] == p.entries[id].(owned := false, status := Status.Stopping)
    else p'.entries[id] == p.entries[id] && (id in p'.joining <==> id in p.joining)
  }

  lemma TakenOne(p: Parents, id: string)
    requires id in p.entries && p.entries[id].owned
    ensures Taken(p, {id}) == p.(entries := p.entries[id := p.entries[id].(owned := false, status := Status.Stopping)],
                                 joining := p.joining + {id})
  {
    assert (set o <- p.entries | o in {id} && p.entries[o].owned) == {id};
  }

  /** Taking owners out to join them releases nothing. */
  lemma TakenKeepsCharges(p: Parents, finished: set<string>)
    requires ParentsInv(p)
    ensures ParentsInv(Taken(p, finished))
    ensures ReservedCapacity(Taken(p, finished)) == ReservedCapacity(p)
  {
    var p' := Taken(p, finished);
    assert (map o <- p'.entries :: p'.entries[o].reservedBytes) == (map o <- p.entries :: p.entries[o].reservedBytes);
    assert (map o <- p'.entries :: p'.entries[o].reservedEgress) == (map o <- p.entries :: p.entries[o].reservedEgress);
    assert Charged(p'.entries) == Charged(p.entries);
    forall o <- p'.entries ensures EntryInv(p', o) {
      assert EntryInv(p, o);
    }
  }

  /** A reap takes out exactly the finished owners. */
  lemma TakenMeans(p: Parents, finished: set<string>)
    ensures var p' := Taken(p, finished);
            && p'.entries.Keys == p.entries.Keys
            && forall id <- p.entries :: TookIff(p, p', id, id in finished)
  {
  }

  /** What a stop is told, by whoever asks: only its own principal is told anything but
      that there is no such parent, and only one stop of an owner takes it out; one
      that is over says so, one that is being taken down is pending. */
  lemma StopAnswers(p: Parents, principal: string, id: string)
    requires ParentsInv(p)
    ensures var (p', told) := StopBegun(p, principal, id);
            var mine := id in p.entries && p.entries[id].principal == principal;
            && (told.NotFound? <==> !mine)
            && (told.Took? <==> mine && p.entries[id].owned)
            && (told.AlreadyStopped? <==>
                  mine && (p.entries[id].status == Stopped
                           || (p.entries[id].status == ContextLost && p.entries[id].reservedBytes == 0)))
            && (told.Took? ==> p'.entries.Keys == p.entries.Keys
                               && forall o <- p.entries :: TookIff(p, p', o, o == id))
            && (!told.Took? ==> p' == p)
  {
    if id in p.entries {
      assert EntryInv(p, id);
      TakenMeans(p, {id});
    }
  }

  /** A confirmed join gives back exactly what this owner was charged, once; an
      unconfirmed one keeps it charged. */
  lemma JoinReleases(p: Parents, id: string, joined: bool, status: Status)
    requires ParentsInv(p) && id in p.joining
    ensures p.entries[id].reservedBytes <= p.reservedBytes && p.entries[id].reservedEgress <= p.reservedEgress
    ensures var p' := Joined(p, id, joined, status);
            && ParentsInv(p')
            && p'.entries[id].owned == false && id !in p'.joining
            && (joined ==>
                  && p'.reservedBytes + p.entries[id].reservedBytes == p.reservedBytes
                  && p'.reservedEgress + p.entries[id].reservedEgress == p.reservedEgress
                  && |Charged(p'.entries)| + 1 == |Charged(p.entries)|)
            && (!joined ==> ReservedCapacity(p') == ReservedCapacity(p))
  {
    ChargeWithinSums(p, id);
    assert EntryInv(p, id);
    var p' := Joined(p, id, joined, status);
    ChargesPut(p.entries, id, p'.entries[id]);
    assert Charged(p'.entries) == if joined then Charged(p.entries) - {id} else Charged(p.entries);
    assert id in Charged(p.entries);
    JoinKeepsEntries(p, id, joined, status);
  }

  /** And what the entry says afterwards; no other changes. */
  lemma JoinMeans(p: Parents, id: string, joined: bool, status: Status)
    requires id in p.joining && id in p.entries
    requires p.entries[id].reservedBytes <= p.reservedBytes && p.entries[id].reservedEgress <= p.reservedEgress
    ensures var p' := Joined(p, id, joined, status);
            && p'.entries.Keys == p.entries.Keys && p'.joining == p.joining - {id}
            && (forall o <- p.entries :: o != id ==> p'.entries[o] == p.entries[o])
            && p'.entries[id].principal == p.entries[id].principal
            && p'.entries[id].status == (if joined then status else TeardownUncertain)
  {
  }

  lemma JoinKeepsEntries(p: Parents, id: string, joined: bool, status: Status)
    requires id in p.joining && id in p.entries && forall o <- p.entries :: EntryInv(p, o)
    requires p.entries[id].reservedBytes <= p.reservedBytes && p.entries[id].reservedEgress <= p.reservedEgress
    ensures var p' := Joined(p, id, joined, status); forall o <- p'.entries :: EntryInv(p', o)
  {
    var p' := Joined(p, id, joined, status);
    forall o <- p'.entries ensures EntryInv(p', o) {
      assert EntryInv(p, o);
    }
  }

  /** Identities are never recreated, whatever happened to their owner. */
  lemma IncarnationsAreNeverReused(p: Parents, limits: Limits, principal: string, id: string,
                                   bytes: nat, egress: nat, spawns: bool, finished: set<string>)
    requires id in p.entries
    ensures Inserted(p, limits, principal, id, bytes, egress, spawns) == (p, false)
    ensures id in Taken(p, finished).entries
  {
  }

  /** Every identity is still there, for the same principal; a charge is what it was
      or gone, and an owner once taken out is not put back. */
  ghost predicate Remembers(p: Parents, q: Parents) {
    forall id <- p.entries ::
      && id in q.entries && q.entries[id].principal == p.entries[id].principal
      && (q.entries[id].reservedBytes == p.entries[id].reservedBytes || q.entries[id].reservedBytes == 0)
      && (q.entries[id].owned ==> p.entries[id].owned)
  }

  lemma InsertRemembers(p: Parents, limits: Limits, principal: string, id: string,
                        bytes: nat, egress: nat, spawns: bool)
    ensures Remembers(p, Inserted(p, limits, principal, id, bytes, egress, spawns).0)
  {
  }

  lemma TakenRemembers(p: Parents, finished: set<string>)
    ensures Remembers(p, Taken(p, finished))
  {
  }

  lemma JoinRemembers(p: Parents, id: string, joined: bool, status: Status)
    requires id in p.joining && id in p.entries
    requires p.entries[id].reservedBytes <= p.reservedBytes && p.entries[id].reservedEgress <= p.reservedEgress
    ensures Remembers(p, Joined(p, id, joined, status))
  {
  }

  lemma RemembersOn(p: Parents, q: Parents, r: Parents)
    requires Remembers(p, q) && Remembers(q, r)
    ensures Remembers(p, r)
  {
  }

  // --------------------------------------------------------------- the object

  /** The owners still charged, counted by a walk over the entries. */
  method CountCharged(entries: map<string, Parent>) returns (owners: nat)
    ensures owners == |Charged(entries)|
  {
    owners := 0;
    var rest := entries.Keys;
    ghost var counted: set<string> := {};
    while rest != {}
      invariant rest <= entries.Keys
      invariant counted == Charged(entries) - rest && owners == |counted|
      decreases |rest|
    {
      var id :| id in rest;
      if entries[id].reservedBytes != 0 {
        owners := owners + 1;
        counted := counted + {id};
      }
      rest := rest - {id};
    }
    assert counted == Charged(entries);
  }

  class Registry {
    var entries: map<string, Parent>
    var reservedBytes: nat
    var reservedEgress: nat
    var draining: bool
    ghost var joining: set<string>
    const limits: Limits

    ghost function Model(): Parents reads this {
      Parents(entries, reservedBytes, reservedEgress, draining, joining)
    }

    ghost predicate Valid() reads this {
      ParentsInv(Model())
    }

    constructor (maxEntries: nat, memoryBytes: nat)
      ensures Valid() && Model() == NO_PARENTS && limits == Limits(maxEntries, memoryBytes)
    {
      entries, reservedBytes, reservedEgress, draining := map[], 0, 0, false;
      joining := {};
      limits := Limits(maxEntries, memoryBytes);
    }

    /** `reserved_capacity`. */
    method Reserved() returns (r: Charge)
      requires Valid()
      ensures r == ReservedCapacity(Model())
      ensures r.memoryBytes == Bytes(entries) && r.egressSlots == Egress(entries)
    {
      var owners := CountCharged(entries);
      r := Charge(owners, reservedBytes, reservedEgress);
    }

    method InsertAdmitted(principal: string, id: string, bytes: nat, egress: nat, spawns: bool)
      returns (ok: bool)
      requires Valid()
      modifies this
      ensures Valid() && (Model(), ok) == Inserted(old(Model()), limits, principal, id, bytes, egress, spawns)
    {
      InsertCharges(Model(), limits, principal, id, bytes, egress, spawns);
      if principal == "" || |principal| > 512 || bytes == 0 { return false; }
      if draining { return false; }
      if id in entries { return false; }
      var total := reservedBytes + bytes;
      if total >= U64 { return false; }
      if |entries| >= limits.maxEntries || total > limits.memoryBytes { return false; }
      var totalEgress := reservedEgress + egress;
      if totalEgress >= U32 { return false; }
      if !spawns { return false; }
      reservedBytes, reservedEgress := total, totalEgress;
      entries := entries[id := Parent(principal, true, Initializing, bytes, egress)];
      ok := true;
    }

    method StopBegin(principal: string, id: string) returns (s: Stopping)
      requires Valid()
      modifies this
      ensures Valid() && (Model(), s) == StopBegun(old(Model()), principal, id)
    {
      TakenKeepsCharges(Model(), {id});
      if id !in entries || entries[id].principal != principal { return NotFound; }
      var entry := entries[id];
      if entry.status == Stopped || (entry.status == ContextLost && entry.reservedBytes == 0) {
        return AlreadyStopped;
      }
      if !entry.owned { return Pending; }
      TakenOne(Model(), id);
      entries := entries[id := entry.(owned := false, status := Status.Stopping)];
      joining := joining + {id};
      s := Took;
    }

    /** The first critical section of `reap_finished`. */
    method ReapBegin(finished: set<string>)
      requires Valid()
      modifies this
      ensures Valid() && Model() == Taken(old(Model()), finished)
    {
      TakenKeepsCharges(Model(), finished);
      var ids := set id <- entries | id in finished && entries[id].owned;
      entries := map id <- entries ::
        if id in ids then entries[id].(owned := false, status := Status.Stopping) else entries[id];
      joining := joining + ids;
    }

    method JoinDone(id: string, joined: bool, status: Status)
      requires Valid() && id in joining
      modifies this
      ensures Valid()
      ensures old(entries)[id].reservedBytes <= old(reservedBytes)
      ensures old(entries)[id].reservedEgress <= old(reservedEgress)
      ensures Model() == Joined(old(Model()), id, joined, status)
    {
      JoinReleases(Model(), id, joined, status);
      var entry := entries[id];
      if joined {
        reservedBytes := reservedBytes - entry.reservedBytes;
        reservedEgress := reservedEgress - entry.reservedEgress;
        entries := entries[id := entry.(status := status, reservedBytes := 0, reservedEgress := 0)];
      } else {
        entries := entries[id := entry.(status := TeardownUncertain)];
      }
      joining := joining - {id};
    }
  }
}
