/** The one-use ledger of child model grants (dispatch_parent_model.rs): a profile
    pinned by its hash, re-read for every turn, and a set of children that have
    claimed theirs. Times are milliseconds. */
module ChildBrokers {
  import opened Common
  import opened Hosts

  const U64: nat := 0x1_0000_0000_0000_0000

  /** A child's identity is the hash of the parent's and the turn's; hashing is
      injective. `Foreign` is any other identity a caller may present. */
  datatype ChildId = ChildOf(parent: string, turnId: string) | Foreign(text: string)

  datatype Binding = Binding(
    incarnation: string, turnModelRequests: nat, turnOutputTokens: nat, childMemoryBytes: nat,
    turnTimeoutMs: nat, maxTurns: nat)

  datatype TurnLimits = TurnLimits(modelRequests: nat, outputTokens: nat, memoryBytes: nat, timeoutMs: nat)

  datatype Turn = Turn(parent: string, child: ChildId, turnId: string, limits: TurnLimits)

  datatype WebProfile = WebProfile(
    allowHosts: seq<string>, maxRequests: nat, maxBodyBytes: nat, maxResponseBytes: nat, timeoutMs: nat)

  /** A decoded profile. `bound` gathers the comparisons with the permit that carry
      no arithmetic: version, principal, bindings, endpoint, model, credential path
      and provider parameters. */
  datatype Profile = Profile(
    bound: bool, maxRequests: nat, maxOutputTokens: nat, maxTotalOutputTokens: nat,
    fetch: Option<WebProfile>, post: Option<WebProfile>)

  datatype WebGrant = WebGrant(
    allowHosts: seq<string>, maxRequests: nat, maxBodyBytes: nat, maxResponseBytes: nat, timeoutMs: nat)

  /** The numbers of the broker policy handed to a child. */
  datatype Grant = Grant(
    requests: nat, timeoutMs: nat, maxOutputTokens: nat, maxTotalOutputTokens: nat,
    get: Option<WebGrant>, post: Option<WebGrant>)

  datatype Refusal = ReservationMismatch | AlreadyClaimed | ProfileRefused | ProfileTooLarge

  type Decoder = Bytes -> Option<Profile>

  /** What the issuer was built with. */
  datatype Issuer = Issuer(
    binding: Binding, profile: Digest, requests: nat, maxTokens: nat, decode: Decoder)

  // --------------------------------------------------------------------- profile

  predicate FetchInRange(w: WebProfile) {
    1 <= w.maxRequests <= 16 && 1 <= w.maxResponseBytes <= 65_536 && 1 <= w.timeoutMs <= 30_000
    && ProfileHosts(w.allowHosts)
  }

  predicate PostInRange(w: WebProfile) {
    FetchInRange(w) && 1 <= w.maxBodyBytes <= 8192
  }

  /** The comparisons of `read_profile`, in its order. */
  predicate PolicyMatches(i: Issuer, p: Profile) {
    && p.bound
    && 256 <= p.maxOutputTokens <= 4096 && p.maxOutputTokens == i.maxTokens
    && p.maxRequests == i.requests && 1 <= p.maxRequests <= 6
    && p.maxRequests <= i.binding.turnModelRequests
    && p.maxRequests * p.maxOutputTokens <= p.maxTotalOutputTokens
    && p.maxTotalOutputTokens <= i.binding.turnOutputTokens
  }

  predicate ProfileOk(i: Issuer, p: Profile) {
    && PolicyMatches(i, p)
    && (p.fetch.Some? ==> FetchInRange(p.fetch.value))
    && (p.post.Some? ==> PostInRange(p.post.value))
  }

  /** `read_profile`: the file as found now, if it could be read. */
  function ReadProfile(i: Issuer, file: Option<Bytes>): Option<Profile> {
    if file.None? || |file.value| > 65_536 || HashOf(file.value) != i.profile then None
    else
      match i.decode(file.value)
      case None => None
      case Some(p) => if ProfileOk(i, p) then Some(p) else None
  }

  /** The multiplication of the token check is only reached with small factors. */
  lemma TokenProductFits(p: Profile)
    requires 256 <= p.maxOutputTokens <= 4096 && 1 <= p.maxRequests <= 6
    ensures 256 <= p.maxRequests * p.maxOutputTokens <= 24_576 < U64
  {
    assert p.maxOutputTokens <= p.maxRequests * p.maxOutputTokens <= 6 * p.maxOutputTokens;
  }

  /** Pinned by hash: whenever the profile can be read, before or after it was
      taken away and put back, it is the same profile. */
  lemma ProfileNeverChanges(i: Issuer, a: Option<Bytes>, b: Option<Bytes>)
    requires ReadProfile(i, a).Some? && ReadProfile(i, b).Some?
    ensures ReadProfile(i, a) == ReadProfile(i, b)
  {
  }

  // ---------------------------------------------------------------------- ledger

  /** The reservation is this parent's, for the child this turn must have, within
      the permit, and the permit has a turn left. */
  predicate Reserved(i: Issuer, claimed: set<ChildId>, t: Turn) {
    && t.parent == i.binding.incarnation
    && t.child == ChildOf(i.binding.incarnation, t.turnId)
    && |claimed| < i.binding.maxTurns
    && t.limits.modelRequests <= i.binding.turnModelRequests
    && t.limits.outputTokens <= i.binding.turnOutputTokens
    && t.limits.memoryBytes <= i.binding.childMemoryBytes
    && 0 < t.limits.timeoutMs <= i.binding.turnTimeoutMs
  }

  function Web(w: WebProfile, turnTimeout: nat): WebGrant {
    WebGrant(w.allowHosts, w.maxRequests, w.maxBodyBytes, w.maxResponseBytes, Min(w.timeoutMs, turnTimeout))
  }

  function GrantOf(p: Profile, t: Turn): Grant {
    Grant(p.maxRequests, t.limits.timeoutMs, p.maxOutputTokens, p.maxTotalOutputTokens,
          match p.fetch
          case Some(w) => Some(Web(w, t.limits.timeoutMs))
          case None => Some(WebGrant([], 0, 0, 0, 1000)),
          match p.post
          case Some(w) => Some(Web(w, t.limits.timeoutMs))
          case None => None)
  }

  /** `for_turn`: the ledger after the call, and the answer. */
  function ForTurn(i: Issuer, claimed: set<ChildId>, t: Turn, file: Option<Bytes>)
    : (set<ChildId>, Result<Grant, Refusal>)
  {
    if !Reserved(i, claimed, t) then (claimed, Err(ReservationMismatch))
    else if t.child in claimed then (claimed, Err(AlreadyClaimed))
    else
      (claimed + {t.child},
       match ReadProfile(i, file)
       case None => Err(ProfileRefused)
       case Some(p) =>
         if p.maxRequests > t.limits.modelRequests || p.maxTotalOutputTokens > t.limits.outputTokens
         then Err(ProfileTooLarge)
         else Ok(GrantOf(p, t)))
  }

  /** A tool grant against the profile it comes from. */
  predicate OfProfile(g: WebGrant, w: WebProfile, turnTimeout: nat) {
    && g.allowHosts == w.allowHosts && ProfileHosts(g.allowHosts)
    && g.maxRequests == w.maxRequests && 1 <= g.maxRequests <= 16
    && g.maxBodyBytes == w.maxBodyBytes
    && g.maxResponseBytes == w.maxResponseBytes && 1 <= g.maxResponseBytes <= 65_536
    && g.timeoutMs <= w.timeoutMs <= 30_000 && g.timeoutMs <= turnTimeout
    && (g.timeoutMs == w.timeoutMs || g.timeoutMs == turnTimeout)
  }

  /** What a granted turn may do, read off the pinned profile: its requests and tokens,
      each tool grant with its own hosts and ceilings and no longer than the turn, and
      without a fetch profile a GET grant that admits nothing. */
  lemma GrantSays(i: Issuer, claimed: set<ChildId>, t: Turn, file: Option<Bytes>)
    requires ForTurn(i, claimed, t, file).1.Ok?
    ensures ReadProfile(i, file).Some?
    ensures var p, g := ReadProfile(i, file).value, ForTurn(i, claimed, t, file).1.value;
            && g.requests == p.maxRequests <= t.limits.modelRequests
            && g.maxOutputTokens == p.maxOutputTokens
            && g.maxTotalOutputTokens == p.maxTotalOutputTokens <= t.limits.outputTokens
            && g.timeoutMs == t.limits.timeoutMs
            && g.get.Some? && (g.post.Some? <==> p.post.Some?)
            && (p.fetch.None? ==> g.get.value == WebGrant([], 0, 0, 0, 1000))
            && (p.fetch.Some? ==> OfProfile(g.get.value, p.fetch.value, t.limits.timeoutMs))
            && (p.post.Some? ==>
                  OfProfile(g.post.value, p.post.value, t.limits.timeoutMs) && 1 <= g.post.value.maxBodyBytes <= 8192)
  {
  }

  /** Every turn, whatever it presents and whatever the ledger holds: not this parent's,
      not its own child's, beyond the permit in turns, requests, tokens, memory or time,
      or without any time, and it is refused before anything is used up; then a child
      that had its turn; then a profile that cannot be read; then one too large. */
  lemma TurnAnswers(i: Issuer, claimed: set<ChildId>, t: Turn, file: Option<Bytes>)
    ensures var b := i.binding;
            var mine := t.parent == b.incarnation && t.child == ChildOf(b.incarnation, t.turnId);
            var fits := && t.limits.modelRequests <= b.turnModelRequests
                        && t.limits.outputTokens <= b.turnOutputTokens
                        && t.limits.memoryBytes <= b.childMemoryBytes
                        && 1 <= t.limits.timeoutMs <= b.turnTimeoutMs;
            var a := ForTurn(i, claimed, t, file).1;
            && (a == Err(ReservationMismatch) <==> !mine || !fits || |claimed| >= b.maxTurns)
            && (a == Err(AlreadyClaimed) <==> mine && fits && |claimed| < b.maxTurns && t.child in claimed)
            && (a == Err(ProfileRefused) <==>
                  mine && fits && |claimed| < b.maxTurns && t.child !in claimed && ReadProfile(i, file).None?)
            && (a == Err(ProfileTooLarge) <==>
                  && mine && fits && |claimed| < b.maxTurns && t.child !in claimed && ReadProfile(i, file).Some?
                  && (t.limits.modelRequests < ReadProfile(i, file).value.maxRequests
                      || t.limits.outputTokens < ReadProfile(i, file).value.maxTotalOutputTokens))
  {
  }

  predicate ToolInRange(w: WebProfile) {
    && 1 <= w.maxRequests <= 16 && 1 <= w.maxResponseBytes <= 65_536 && 1 <= w.timeoutMs <= 30_000
    && ProfileHosts(w.allowHosts)
  }

  /** Exactly which profiles are read: at most 64 KiB under the pinned hash, bound to
      the permit, of the admitted cap and number of requests, able to pay for all of
      them within one turn's tokens, with each tool profile in its range. */
  lemma ProfileReadIff(i: Issuer, file: Option<Bytes>)
    ensures ReadProfile(i, file).Some? <==>
              && file.Some? && |file.value| <= 65_536 && HashOf(file.value) == i.profile
              && i.decode(file.value).Some?
              && var p := i.decode(file.value).value;
              && p.bound
              && 256 <= p.maxOutputTokens <= 4096 && p.maxOutputTokens == i.maxTokens
              && 1 <= p.maxRequests <= 6 && p.maxRequests == i.requests
              && p.maxRequests <= i.binding.turnModelRequests
              && p.maxRequests * p.maxOutputTokens <= p.maxTotalOutputTokens <= i.binding.turnOutputTokens
              && (p.fetch.Some? ==> ToolInRange(p.fetch.value))
              && (p.post.Some? ==> ToolInRange(p.post.value) && 1 <= p.post.value.maxBodyBytes <= 8192)
    ensures ReadProfile(i, file).Some? ==> ReadProfile(i, file) == i.decode(file.value)
  {
  }

  class Brokers {
    const issuer: Issuer
    var claimed: set<ChildId>

    ghost predicate Valid() reads this {
      && |claimed| <= issuer.binding.maxTurns
      && forall c <- claimed :: c.ChildOf? && c.parent == issuer.binding.incarnation
    }

    constructor (issuer: Issuer)
      ensures Valid() && this.issuer == issuer && claimed == {}
    {
      this.issuer := issuer;
      claimed := {};
    }

    /** `for_turn`: the claim is consumed before the profile is even opened. */
    method Issue(turn: Turn, file: Option<Bytes>) returns (r: Result<Grant, Refusal>)
      requires Valid()
      modifies this
      ensures Valid() && (claimed, r) == ForTurn(issuer, old(claimed), turn, file)
      ensures old(claimed) <= claimed
      ensures r.Ok? ==> turn.child !in old(claimed) && claimed == old(claimed) + {turn.child}
    {
      var expected := ChildOf(issuer.binding.incarnation, turn.turnId);
      if turn.parent != issuer.binding.incarnation || turn.child != expected
         || |claimed| >= issuer.binding.maxTurns
         || turn.limits.modelRequests > issuer.binding.turnModelRequests
         || turn.limits.outputTokens > issuer.binding.turnOutputTokens
         || turn.limits.memoryBytes > issuer.binding.childMemoryBytes
         || turn.limits.timeoutMs == 0 || turn.limits.timeoutMs > issuer.binding.turnTimeoutMs
      {
        return Err(ReservationMismatch);
      }
      if turn.child in claimed { return Err(AlreadyClaimed); }
      claimed := claimed + {turn.child};
      var profile := ReadProfile(issuer, file);
      if profile.None? { return Err(ProfileRefused); }
      if profile.value.maxRequests > turn.limits.modelRequests
         || profile.value.maxTotalOutputTokens > turn.limits.outputTokens
      {
        return Err(ProfileTooLarge);
      }
      r := Ok(GrantOf(profile.value, turn));
    }
  }

  // ------------------------------------------------------------------------ runs

  datatype Call = Call(turn: Turn, file: Option<Bytes>)

  /** The ledger after some calls, and the grants given, by child, in order. */
  function Ledger(i: Issuer, calls: seq<Call>): (set<ChildId>, seq<(ChildId, Grant)>) {
    if calls == [] then ({}, [])
    else
      var (claimed, given) := Ledger(i, calls[..|calls| - 1]);
      var c := calls[|calls| - 1];
      var (claimed', r) := ForTurn(i, claimed, c.turn, c.file);
      (claimed', given + if r.Ok? then [(c.turn.child, r.value)] else [])
  }

  /** Every grant is for a child that claimed it, and no child has two. */
  ghost predicate OneEach(claimed: set<ChildId>, given: seq<(ChildId, Grant)>) {
    && (forall g <- given :: g.0 in claimed)
    && (forall j, k :: 0 <= j < k < |given| ==> given[j].0 != given[k].0)
  }

  /** The grant pays for all its requests at the cap and stays within one turn. */
  predicate Affordable(i: Issuer, g: Grant) {
    && 1 <= g.requests <= i.binding.turnModelRequests
    && g.requests * g.maxOutputTokens <= g.maxTotalOutputTokens <= i.binding.turnOutputTokens
    && 0 < g.timeoutMs <= i.binding.turnTimeoutMs
    && (g.get.Some? ==> g.get.value.timeoutMs <= g.timeoutMs || g.get.value.maxRequests == 0)
    && (g.post.Some? ==> g.post.value.timeoutMs <= g.timeoutMs)
  }

  lemma LedgerStep(i: Issuer, claimed: set<ChildId>, given: seq<(ChildId, Grant)>, c: Call)
    requires OneEach(claimed, given) && |given| <= |claimed| <= i.binding.maxTurns
    ensures var (claimed', r) := ForTurn(i, claimed, c.turn, c.file);
            var given' := given + if r.Ok? then [(c.turn.child, r.value)] else [];
            && OneEach(claimed', given') && |given'| <= |claimed'| <= i.binding.maxTurns
            && claimed <= claimed' && (r.Ok? ==> Affordable(i, r.value))
  {
    var (claimed', r) := ForTurn(i, claimed, c.turn, c.file);
    if r.Ok? {
      var given' := given + [(c.turn.child, r.value)];
      forall g <- given' ensures g.0 in claimed' {
        assert g in given || g == (c.turn.child, r.value);
      }
      forall j, k | 0 <= j < k < |given'| ensures given'[j].0 != given'[k].0 {
        if k == |given| { assert given[j] in given; }
      }
    } else {
      assert given + [] == given;
      assert forall g <- given :: g.0 in claimed';
    }
  }

  /** The ledger of any sequence of calls, honest, forged, repeated or failing, with
      the profile withdrawn and restored at will. */
  lemma {:induction false} LedgerInv(i: Issuer, calls: seq<Call>)
    ensures var (claimed, given) := Ledger(i, calls);
            && OneEach(claimed, given)
            && |given| <= |claimed| <= i.binding.maxTurns
            && forall g <- given :: Affordable(i, g.1)
  {
    if calls != [] {
      var before, c := calls[..|calls| - 1], calls[|calls| - 1];
      LedgerInv(i, before);
      var (claimed, given) := Ledger(i, before);
      LedgerStep(i, claimed, given, c);
    }
  }

  function TotalRequests(given: seq<(ChildId, Grant)>): nat {
    if given == [] then 0 else TotalRequests(given[..|given| - 1]) + given[|given| - 1].1.requests
  }

  function TotalTokens(given: seq<(ChildId, Grant)>): nat {
    if given == [] then 0 else TotalTokens(given[..|given| - 1]) + given[|given| - 1].1.maxTotalOutputTokens
  }

  lemma OneMore(n: nat, each: nat)
    ensures (n + 1) * each == n * each + each
  {
  }

  lemma {:induction false} TotalsBounded(i: Issuer, given: seq<(ChildId, Grant)>)
    requires forall g <- given :: Affordable(i, g.1)
    ensures TotalRequests(given) <= |given| * i.binding.turnModelRequests
    ensures TotalTokens(given) <= |given| * i.binding.turnOutputTokens
  {
    if given != [] {
      var last := |given| - 1;
      assert given[last] in given;
      TotalsBounded(i, given[..last]);
      OneMore(last, i.binding.turnModelRequests);
      OneMore(last, i.binding.turnOutputTokens);
    }
  }

  lemma Scales(a: nat, b: nat, c: nat)
    requires a <= b
    ensures a * c <= b * c
  {
  }

  /** Child grant ledger. Over any sequence of calls each child gets at most one
      grant, at most max-turns identities are ever consumed, and all requests and
      tokens granted together stay within max-turns times one turn's bound. */
  lemma LedgerStaysWithinThePermit(i: Issuer, calls: seq<Call>)
    ensures var (claimed, given) := Ledger(i, calls);
            && (forall j, k :: 0 <= j < k < |given| ==> given[j].0 != given[k].0)
            && |given| <= |claimed| <= i.binding.maxTurns
            && TotalRequests(given) <= i.binding.maxTurns * i.binding.turnModelRequests
            && TotalTokens(given) <= i.binding.maxTurns * i.binding.turnOutputTokens
            && (forall g <- given :: g.1.requests * g.1.maxOutputTokens <= g.1.maxTotalOutputTokens)
  {
    LedgerInv(i, calls);
    var (claimed, given) := Ledger(i, calls);
    TotalsBounded(i, given);
    Scales(|given|, i.binding.maxTurns, i.binding.turnModelRequests);
    Scales(|given|, i.binding.maxTurns, i.binding.turnOutputTokens);
  }

  /** No refund: a consumed identity stays consumed through every later call, and
      whatever is tried for it again is refused. */
  lemma {:induction false} NoRefund(i: Issuer, calls: seq<Call>, more: seq<Call>)
    ensures Ledger(i, calls).0 <= Ledger(i, calls + more).0
    ensures forall t: Turn, file :: t.child in Ledger(i, calls).0 ==>
              ForTurn(i, Ledger(i, calls + more).0, t, file).1.Err?
  {
    if more == [] {
      assert calls + more == calls;
    } else {
      var last := |more| - 1;
      NoRefund(i, calls, more[..last]);
      assert (calls + more)[..|calls + more| - 1] == calls + more[..last];
    }
  }

  /** A forged or oversized reservation is refused before it can use up a turn; one
      that is in order uses up its turn even when the profile then fails. */
  lemma OnlyReservationsConsume(i: Issuer, claimed: set<ChildId>, t: Turn, file: Option<Bytes>)
    ensures ForTurn(i, claimed, t, file).0 != claimed <==> Reserved(i, claimed, t) && t.child !in claimed
    ensures t.child != ChildOf(t.parent, t.turnId) ==>
              ForTurn(i, claimed, t, file) == (claimed, Err(ReservationMismatch))
    ensures Reserved(i, claimed, t) && t.child !in claimed ==> t.child in ForTurn(i, claimed, t, file).0
  {
    if t.child !in claimed { assert t.child in claimed + {t.child}; }
  }

  /** Two turns of one parent never share a child: their identities differ. */
  lemma DistinctTurnsDistinctChildren(i: Issuer, claimed: set<ChildId>, later: set<ChildId>, a: Turn, b: Turn)
    requires Reserved(i, claimed, a) && Reserved(i, later, b)
    ensures a.child == b.child <==> a.turnId == b.turnId
  {
  }

  /** Every turn the permit allows can be honoured: with the pinned profile in
      place, a reservation that leaves room for it is granted. */
  lemma GrantedIff(i: Issuer, claimed: set<ChildId>, t: Turn, file: Option<Bytes>)
    ensures ForTurn(i, claimed, t, file).1.Ok? <==>
              && Reserved(i, claimed, t) && t.child !in claimed && ReadProfile(i, file).Some?
              && i.requests <= t.limits.modelRequests
              && ReadProfile(i, file).value.maxTotalOutputTokens <= t.limits.outputTokens
  {
  }
}
