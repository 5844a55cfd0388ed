/** Scoped web authority (dispatch_scoped_https.rs): per method, one grant for a
    cell, the meet of what every selected tool was signed for. Decisions and
    materials are taken as already decoded. */
module ScopedHttps {
  import opened Common
  import opened Ceilings
  import opened Hosts

  const POST_BODY_BYTES: nat := 4096

  datatype Limits = Limits(allowHosts: seq<string>, maxRequests: nat, maxResponseBytes: nat, timeoutMillis: nat)

  /** A JSON field: absent or null, of the wrong shape, or decoded. */
  datatype Field = Null | Malformed | Present(limits: Limits)

  /** The limits of one tool as the decision signs them or the material declares
      them; a number of the wrong shape is `None`. */
  datatype Side = Side(
    https: Field, workspaceNone: bool, artifactsNull: bool, external: bool, timeoutMillis: Option<nat>)

  datatype EntryPoint = GetEntry | PostEntry | OtherEntry

  datatype Material = Material(side: Side, entry: EntryPoint)
  datatype Binding = Binding(side: Side, argumentBytes: Option<nat>)
  datatype Tool = Tool(material: Material, binding: Binding)

  datatype Refusal = Unsupported | BindingMismatch | OutOfRange

  datatype Grant = Grant(
    hosts: seq<string>, requests: nat, responseBytes: nat, timeoutMs: nat, bodyBytes: nat)

  datatype Policy = Policy(get: Option<Grant>, post: Option<Grant>)

  // -------------------------------------------------------------- single tools

  predicate InRange(requests: nat, responseBytes: nat, timeout: nat) {
    1 <= requests <= 16 && 1 <= responseBytes <= 65_536 && 1 <= timeout <= 30_000
  }

  /** `limits`. */
  function Checked(f: Field, toolTimeout: Option<nat>): Result<Limits, Refusal> {
    if !f.Present? || toolTimeout.None? || !ScopedHosts(f.limits.allowHosts) then Err(Unsupported)
    else if !InRange(f.limits.maxRequests, f.limits.maxResponseBytes, f.limits.timeoutMillis)
            || f.limits.timeoutMillis > toolTimeout.value then Err(OutOfRange)
    else Ok(f.limits)
  }

  /** `within`. */
  predicate WithinHosts(signed: seq<string>, declared: seq<string>) {
    AnyHost(declared) || (!AnyHost(signed) && forall h <- signed :: h in declared)
  }

  /** For valid lists that is exactly: nothing admitted by the first but not by the
      second. */
  lemma WithinIsInclusion(signed: seq<string>, declared: seq<string>)
    requires ScopedHosts(signed) && ScopedHosts(declared)
    ensures WithinHosts(signed, declared) <==> forall n :: Admits(signed, n) ==> Admits(declared, n)
  {
    if !AnyHost(declared) {
      if AnyHost(signed) {
        StarIsNoName();
        assert Admits(signed, ANY_PUBLIC_HOST) && !Admits(declared, ANY_PUBLIC_HOST);
      } else if forall n :: Admits(signed, n) ==> Admits(declared, n) {
        forall h <- signed ensures h in declared { assert Admits(signed, h); }
      }
    }
  }

  predicate WithinLimits(signed: Limits, declared: Limits) {
    && WithinHosts(signed.allowHosts, declared.allowHosts)
    && signed.maxRequests <= declared.maxRequests
    && signed.maxResponseBytes <= declared.maxResponseBytes
    && signed.timeoutMillis <= declared.timeoutMillis
  }

  /** The grant one tool asks for, and for which method. */
  datatype Claim = NoWeb | Web(post: bool, grant: Grant)

  function ClaimOf(routed: bool, t: Tool): Result<Claim, Refusal> {
    var signed, declared := t.binding.side, t.material.side;
    if signed.https.Null? && declared.https.Null? then Ok(NoWeb)
    else if !routed || !signed.workspaceNone || !declared.workspaceNone || !signed.artifactsNull
            || !declared.artifactsNull || !signed.external || !declared.external then Err(Unsupported)
    else
      match Checked(signed.https, signed.timeoutMillis)
      case Err(e) => Err(e)
      case Ok(s) =>
        match Checked(declared.https, declared.timeoutMillis)
        case Err(e) => Err(e)
        case Ok(d) =>
          if !WithinLimits(s, d) then Err(BindingMismatch)
          else if t.binding.argumentBytes.None? || t.material.entry.OtherEntry? then Err(Unsupported)
          else
            Ok(Web(t.material.entry.PostEntry?,
                   Grant(s.allowHosts, s.maxRequests, s.maxResponseBytes, s.timeoutMillis,
                         Min(t.binding.argumentBytes.value, POST_BODY_BYTES))))
  }

  /** Limits that stand on their own: a valid host list, every number in its range,
      and no longer than the tool itself may run. */
  predicate Sound(side: Side) {
    && side.https.Present? && ScopedHosts(side.https.limits.allowHosts)
    && InRange(side.https.limits.maxRequests, side.https.limits.maxResponseBytes, side.https.limits.timeoutMillis)
    && side.timeoutMillis.Some? && side.https.limits.timeoutMillis <= side.timeoutMillis.value
    && side.workspaceNone && side.artifactsNull && side.external
  }

  /** Exactly which tools are accepted, and what they ask for: those without web
      limits on either side ask for nothing; any other needs a model route, sound
      limits on both sides, a signed reach that the declared one includes, an
      argument bound and one of the two web entry points. */
  lemma ToolAcceptedIff(routed: bool, t: Tool)
    ensures var signed, declared := t.binding.side, t.material.side;
            var asks := !(signed.https.Null? && declared.https.Null?);
            && (ClaimOf(routed, t).Ok? <==>
                  asks ==>
                    && routed && Sound(signed) && Sound(declared)
                    && (forall n :: Admits(signed.https.limits.allowHosts, n) ==>
                          Admits(declared.https.limits.allowHosts, n))
                    && signed.https.limits.maxRequests <= declared.https.limits.maxRequests
                    && signed.https.limits.maxResponseBytes <= declared.https.limits.maxResponseBytes
                    && signed.https.limits.timeoutMillis <= declared.https.limits.timeoutMillis
                    && t.binding.argumentBytes.Some? && !t.material.entry.OtherEntry?)
            && (ClaimOf(routed, t).Ok? ==> (ClaimOf(routed, t).value.Web? <==> asks))
            && (ClaimOf(routed, t).Ok? && asks ==>
                  && ClaimOf(routed, t).value.post == t.material.entry.PostEntry?
                  && ClaimOf(routed, t).value.grant == Grant(
                       signed.https.limits.allowHosts, signed.https.limits.maxRequests,
                       signed.https.limits.maxResponseBytes, signed.https.limits.timeoutMillis,
                       Min(t.binding.argumentBytes.value, 4096)))
  {
    var signed, declared := t.binding.side, t.material.side;
    if Sound(signed) && Sound(declared) {
      WithinIsInclusion(signed.https.limits.allowHosts, declared.https.limits.allowHosts);
    }
  }

  /** The limits of one side are of the right shape, and only their numbers are off. */
  predicate NumbersOff(side: Side) {
    && side.https.Present? && side.timeoutMillis.Some? && ScopedHosts(side.https.limits.allowHosts)
    && !(&& 1 <= side.https.limits.maxRequests <= 16 && 1 <= side.https.limits.maxResponseBytes <= 65_536
         && 1 <= side.https.limits.timeoutMillis <= 30_000
         && side.https.limits.timeoutMillis <= side.timeoutMillis.value)
  }

  /** Which refusal a tool gets: out of range when the numbers of the signed side are
      off, or those of the declared one behind a sound signed side; a mismatch when
      both sides are sound and the signed reach is not inside the declared one;
      unsupported for everything else. */
  lemma ToolRefusedFor(routed: bool, t: Tool)
    ensures var signed, declared := t.binding.side, t.material.side;
            var plain := routed && signed.workspaceNone && declared.workspaceNone && signed.artifactsNull
                         && declared.artifactsNull && signed.external && declared.external
                         && !(signed.https.Null? && declared.https.Null?);
            && (ClaimOf(routed, t) == Err(OutOfRange) <==>
                  plain && (NumbersOff(signed) || (Sound(signed) && NumbersOff(declared))))
            && (ClaimOf(routed, t) == Err(BindingMismatch) <==>
                  && plain && Sound(signed) && Sound(declared)
                  && !(&& (forall n :: Admits(signed.https.limits.allowHosts, n) ==>
                             Admits(declared.https.limits.allowHosts, n))
                       && signed.https.limits.maxRequests <= declared.https.limits.maxRequests
                       && signed.https.limits.maxResponseBytes <= declared.https.limits.maxResponseBytes
                       && signed.https.limits.timeoutMillis <= declared.https.limits.timeoutMillis))
  {
    var signed, declared := t.binding.side, t.material.side;
    if Sound(signed) && Sound(declared) {
      WithinIsInclusion(signed.https.limits.allowHosts, declared.https.limits.allowHosts);
    }
  }

  // ---------------------------------------------------------------------- meets

  function Kept(hosts: seq<string>, other: seq<string>): seq<string> {
    if hosts == [] then []
    else
      var last := |hosts| - 1;
      Kept(hosts[..last], other) + if hosts[last] in other then [hosts[last]] else []
  }

  function MeetHosts(a: seq<string>, b: seq<string>): seq<string> {
    if AnyHost(b) then a else if AnyHost(a) then b else Kept(a, b)
  }

  function Meet(a: Grant, b: Grant): Option<Grant> {
    var hosts := MeetHosts(a.hosts, b.hosts);
    if hosts == [] then None
    else Some(Grant(hosts, Min(a.requests, b.requests), Min(a.responseBytes, b.responseBytes),
                    Min(a.timeoutMs, b.timeoutMs), Min(a.bodyBytes, b.bodyBytes)))
  }

  lemma {:induction false} KeptIsIntersection(hosts: seq<string>, other: seq<string>)
    requires Distinct(hosts)
    ensures |Kept(hosts, other)| <= |hosts| && Distinct(Kept(hosts, other))
    ensures forall h :: h in Kept(hosts, other) <==> h in hosts && h in other
  {
    if hosts != [] {
      var last := |hosts| - 1;
      KeptIsIntersection(hosts[..last], other);
      assert hosts == hosts[..last] + [hosts[last]];
      assert hosts[last] !in hosts[..last];
    }
  }

  /** The meet of two lists admits what both admit, and is a valid list unless it
      is empty. */
  lemma MeetHostsAdmit(a: seq<string>, b: seq<string>)
    requires ScopedHosts(a) && ScopedHosts(b)
    ensures var m := MeetHosts(a, b);
            && (m != [] ==> ScopedHosts(m))
            && forall n :: Admits(m, n) <==> Admits(a, n) && Admits(b, n)
  {
    if !AnyHost(a) && !AnyHost(b) {
      KeptIsIntersection(a, b);
      var m := Kept(a, b);
      if m != [] {
        FewerHosts(a, m);
      }
    }
  }

  // ------------------------------------------------------------------ the object

  /** One method's grant, narrowed in place. */
  class GrantCell {
    var hosts: seq<string>
    var requests: nat
    var responseBytes: nat
    var timeoutMs: nat
    var bodyBytes: nat

    function Value(): Grant reads this {
      Grant(hosts, requests, responseBytes, timeoutMs, bodyBytes)
    }

    constructor (g: Grant)
      ensures Value() == g
    {
      hosts, requests, responseBytes, timeoutMs, bodyBytes :=
        g.hosts, g.requests, g.responseBytes, g.timeoutMs, g.bodyBytes;
    }

    /** `Grant::intersect`; when it fails the caller drops the whole policy. */
    method Intersect(other: Grant) returns (ok: bool)
      modifies this
      ensures ok == Meet(old(Value()), other).Some?
      ensures ok ==> Value() == Meet(old(Value()), other).value
      ensures !ok ==> Value() == old(Value()).(hosts := [])
    {
      if AnyHost(other.hosts) {
      } else if AnyHost(hosts) {
        hosts := other.hosts;
      } else {
        var all, kept := hosts, [];
        for i := 0 to |all|
          invariant kept == Kept(all[..i], other.hosts)
        {
          assert all[..i + 1][..i] == all[..i];
          if all[i] in other.hosts { kept := kept + [all[i]]; }
        }
        assert all[..|all|] == all;
        hosts := kept;
      }
      if hosts == [] { return false; }
      requests := Min(requests, other.requests);
      responseBytes := Min(responseBytes, other.responseBytes);
      timeoutMs := Min(timeoutMs, other.timeoutMs);
      bodyBytes := Min(bodyBytes, other.bodyBytes);
      ok := true;
    }
  }

  // ------------------------------------------------------------------ derivation

  /** A method's slot takes one more grant. */
  function Narrowed(slot: Option<Grant>, g: Grant): Option<Grant> {
    if slot.None? then Some(g) else Meet(slot.value, g)
  }

  function Added(policy: Option<Policy>, c: Claim): Result<Option<Policy>, Refusal> {
    match c
    case NoWeb => Ok(policy)
    case Web(post, g) =>
      var p := if policy.Some? then policy.value else Policy(None, None);
      var slot := Narrowed(if post then p.post else p.get, g);
      if slot.None? then Err(BindingMismatch)
      else Ok(Some(if post then p.(post := slot) else p.(get := slot)))
  }

  function Derived(routed: bool, tools: seq<Tool>): Result<Option<Policy>, Refusal> {
    if tools == [] then Ok(None)
    else
      match Derived(routed, tools[..|tools| - 1])
      case Err(e) => Err(e)
      case Ok(policy) =>
        match ClaimOf(routed, tools[|tools| - 1])
        case Err(e) => Err(e)
        case Ok(c) => Added(policy, c)
  }

  function Zip(materials: seq<Material>, bindings: seq<Binding>): seq<Tool>
    requires |materials| == |bindings|
  {
    seq(|bindings|, i requires 0 <= i < |bindings| => Tool(materials[i], bindings[i]))
  }

  function SlotValue(cell: GrantCell?): Option<Grant>
    reads cell
  {
    if cell == null then None else Some(cell.Value())
  }

  lemma DerivedStops(routed: bool, tools: seq<Tool>, i: nat)
    requires i <= |tools| && Derived(routed, tools[..i]).Err?
    ensures Derived(routed, tools) == Derived(routed, tools[..i])
  {
    FirstErrorStays((ts: seq<Tool>) => Derived(routed, ts), tools, i);
  }

  /** `derive`; arrays that are not there are `None`. */
  method Derive(execution: Option<seq<Material>>, decision: Option<seq<Binding>>, routed: bool)
    returns (r: Result<Option<Policy>, Refusal>)
    ensures execution.None? || decision.None? ==> r == Err(Unsupported)
    ensures execution.Some? && decision.Some? ==>
              r == if |execution.value| != |decision.value| then Err(BindingMismatch)
                   else Derived(routed, Zip(execution.value, decision.value))
  {
    if execution.None? || decision.None? { return Err(Unsupported); }
    var materials, bindings := execution.value, decision.value;
    if |materials| != |bindings| { return Err(BindingMismatch); }
    ghost var zipped := Zip(materials, bindings);
    var some, get: GrantCell?, post: GrantCell? := false, null, null;
    for i := 0 to |bindings|
      invariant get != null ==> fresh(get)
      invariant post != null ==> fresh(post) && post != get
      invariant !some ==> get == null && post == null
      invariant Derived(routed, zipped[..i]) == Ok(if some then Some(Policy(SlotValue(get), SlotValue(post))) else None)
    {
      assert zipped[..i + 1][..i] == zipped[..i];
      var claim := ClaimOf(routed, Tool(materials[i], bindings[i]));
      if claim.Err? {
        DerivedStops(routed, zipped, i + 1);
        return Err(claim.refusal);
      }
      if claim.value.Web? {
        var slot := if claim.value.post then post else get;
        var ok := true;
        if slot == null {
          slot := new GrantCell(claim.value.grant);
        } else {
          ok := slot.Intersect(claim.value.grant);
        }
        if !ok {
          DerivedStops(routed, zipped, i + 1);
          return Err(BindingMismatch);
        }
        some := true;
        if claim.value.post { post := slot; } else { get := slot; }
      }
    }
    assert zipped[..|bindings|] == zipped;
    r := Ok(if some then Some(Policy(SlotValue(get), SlotValue(post))) else None);
  }

  // -------------------------------------------------------------- the exact meet

  predicate AllAccepted(routed: bool, tools: seq<Tool>) {
    forall t <- tools :: ClaimOf(routed, t).Ok?
  }

  /** The grants the tools ask for, for one method. */
  function Asked(routed: bool, tools: seq<Tool>, post: bool): seq<Grant> {
    if tools == [] then []
    else
      Asked(routed, tools[..|tools| - 1], post)
      + match ClaimOf(routed, tools[|tools| - 1])
        case Ok(Web(p, g)) => if p == post then [g] else []
        case _ => []
  }

  ghost predicate AllAdmit(gs: seq<Grant>, n: string) {
    forall g <- gs :: Admits(g.hosts, n)
  }

  /** Some name is admitted by every grant. */
  ghost predicate Compatible(gs: seq<Grant>) {
    exists n :: AllAdmit(gs, n)
  }

  function Requests(gs: seq<Grant>): seq<nat> { seq(|gs|, i requires 0 <= i < |gs| => gs[i].requests) }
  function ResponseBytes(gs: seq<Grant>): seq<nat> { seq(|gs|, i requires 0 <= i < |gs| => gs[i].responseBytes) }
  function Timeouts(gs: seq<Grant>): seq<nat> { seq(|gs|, i requires 0 <= i < |gs| => gs[i].timeoutMs) }
  function BodyBytes(gs: seq<Grant>): seq<nat> { seq(|gs|, i requires 0 <= i < |gs| => gs[i].bodyBytes) }

  /** The meet, said without the fold: it admits exactly what every grant admits,
      and each ceiling is the least. */
  ghost predicate IsMeet(slot: Option<Grant>, gs: seq<Grant>) {
    if gs == [] then slot.None?
    else
      && slot.Some? && ScopedHosts(slot.value.hosts)
      && (forall n :: Admits(slot.value.hosts, n) <==> AllAdmit(gs, n))
      && slot.value.requests == Least(Requests(gs))
      && slot.value.responseBytes == Least(ResponseBytes(gs))
      && slot.value.timeoutMs == Least(Timeouts(gs))
      && slot.value.bodyBytes == Least(BodyBytes(gs))
  }

  lemma AllAdmitOneMore(gs: seq<Grant>, g: Grant, n: string)
    ensures AllAdmit(gs + [g], n) <==> AllAdmit(gs, n) && Admits(g.hosts, n)
  {
    assert forall x <- gs :: x in gs + [g];
    assert g in gs + [g];
  }

  lemma ColumnsOneMore(gs: seq<Grant>, g: Grant)
    ensures Requests(gs + [g]) == Requests(gs) + [g.requests]
    ensures ResponseBytes(gs + [g]) == ResponseBytes(gs) + [g.responseBytes]
    ensures Timeouts(gs + [g]) == Timeouts(gs) + [g.timeoutMs]
    ensures BodyBytes(gs + [g]) == BodyBytes(gs) + [g.bodyBytes]
  {
  }

  lemma CeilingsOneMore(gs: seq<Grant>, g: Grant)
    ensures gs == [] ==>
              && Least(Requests(gs + [g])) == g.requests && Least(ResponseBytes(gs + [g])) == g.responseBytes
              && Least(Timeouts(gs + [g])) == g.timeoutMs && Least(BodyBytes(gs + [g])) == g.bodyBytes
    ensures gs != [] ==>
              && Least(Requests(gs + [g])) == Min(Least(Requests(gs)), g.requests)
              && Least(ResponseBytes(gs + [g])) == Min(Least(ResponseBytes(gs)), g.responseBytes)
              && Least(Timeouts(gs + [g])) == Min(Least(Timeouts(gs)), g.timeoutMs)
              && Least(BodyBytes(gs + [g])) == Min(Least(BodyBytes(gs)), g.bodyBytes)
  {
    ColumnsOneMore(gs, g);
    if gs != [] {
      LeastAppend(Requests(gs), g.requests);
      LeastAppend(ResponseBytes(gs), g.responseBytes);
      LeastAppend(Timeouts(gs), g.timeoutMs);
      LeastAppend(BodyBytes(gs), g.bodyBytes);
    }
  }

  /** One more grant: the slot stays the meet, or nothing is left for anyone. */
  lemma NarrowedIsMeet(slot: Option<Grant>, gs: seq<Grant>, g: Grant)
    requires IsMeet(slot, gs) && ScopedHosts(g.hosts)
    ensures Narrowed(slot, g).Some? ==> IsMeet(Narrowed(slot, g), gs + [g]) && Compatible(gs + [g])
    ensures Narrowed(slot, g).None? ==> !Compatible(gs + [g])
  {
    CeilingsOneMore(gs, g);
    forall n ensures AllAdmit(gs + [g], n) <==> AllAdmit(gs, n) && Admits(g.hosts, n) {
      AllAdmitOneMore(gs, g, n);
    }
    if slot.Some? { MeetHostsAdmit(slot.value.hosts, g.hosts); }
    var next := Narrowed(slot, g);
    if next.Some? {
      assert ScopedHosts(next.value.hosts);
      assert Admits(next.value.hosts, next.value.hosts[0]);
      assert AllAdmit(gs + [g], next.value.hosts[0]);
    }
  }

  lemma IncompatibleStays(gs: seq<Grant>, g: Grant)
    requires !Compatible(gs)
    ensures !Compatible(gs + [g])
  {
    forall n ensures !AllAdmit(gs + [g], n) {
      AllAdmitOneMore(gs, g, n);
      assert !AllAdmit(gs, n);
    }
  }

  lemma EmptyIsCompatible()
    ensures Compatible([])
  {
    assert AllAdmit([], "");
  }

  /** The policy holds, for each method, the meet of what was asked for it. */
  ghost predicate Exact(policy: Option<Policy>, gets: seq<Grant>, posts: seq<Grant>) {
    if policy.None? then gets == [] && posts == []
    else IsMeet(policy.value.get, gets) && IsMeet(policy.value.post, posts) && (gets != [] || posts != [])
  }

  lemma AddedIsExact(policy: Option<Policy>, gets: seq<Grant>, posts: seq<Grant>, c: Claim)
    requires Exact(policy, gets, posts) && (c.Web? ==> ScopedHosts(c.grant.hosts))
    ensures var gets' := gets + (if c.Web? && !c.post then [c.grant] else []);
            var posts' := posts + (if c.Web? && c.post then [c.grant] else []);
            && (Added(policy, c).Ok? ==> Exact(Added(policy, c).value, gets', posts'))
            && (c.Web? ==> (Added(policy, c).Ok? <==> if c.post then Compatible(posts') else Compatible(gets')))
            && (c.NoWeb? ==> Added(policy, c).Ok?)
  {
    assert gets + [] == gets && posts + [] == posts;
    if c.Web? {
      var p := if policy.Some? then policy.value else Policy(None, None);
      if c.post { NarrowedIsMeet(p.post, posts, c.grant); } else { NarrowedIsMeet(p.get, gets, c.grant); }
    }
  }

  /** Web authority is the exact meet: a decision is accepted exactly when every
      tool is, one by one, and for each method some host is common to all its
      tools; then each grant admits exactly the common hosts, under the least of
      each signed ceiling. */
  lemma {:induction false} AuthorityIsTheMeet(routed: bool, tools: seq<Tool>)
    ensures var gets, posts := Asked(routed, tools, false), Asked(routed, tools, true);
            && (Derived(routed, tools).Ok? <==>
                  AllAccepted(routed, tools) && Compatible(gets) && Compatible(posts))
            && (Derived(routed, tools).Ok? ==> Exact(Derived(routed, tools).value, gets, posts))
  {
    if tools == [] {
      EmptyIsCompatible();
    } else {
      var last := |tools| - 1;
      var before, t := tools[..last], tools[last];
      AuthorityIsTheMeet(routed, before);
      assert tools == before + [t];
      assert AllAccepted(routed, tools) <==> AllAccepted(routed, before) && ClaimOf(routed, t).Ok?;
      var gets, posts := Asked(routed, before, false), Asked(routed, before, true);
      assert gets + [] == gets && posts + [] == posts;
      if ClaimOf(routed, t).Ok? {
        var c := ClaimOf(routed, t).value;
        if Derived(routed, before).Ok? {
          AddedIsExact(Derived(routed, before).value, gets, posts, c);
        } else if c.Web? {
          if !Compatible(gets) { IncompatibleStays(gets, c.grant); }
          if !Compatible(posts) { IncompatibleStays(posts, c.grant); }
        }
      }
    }
  }

  lemma {:induction false} AskedBySome(routed: bool, tools: seq<Tool>, post: bool, g: Grant)
    ensures g in Asked(routed, tools, post) <==> exists t <- tools :: ClaimOf(routed, t) == Ok(Web(post, g))
  {
    if tools != [] {
      var last := |tools| - 1;
      assert tools == tools[..last] + [tools[last]];
      AskedBySome(routed, tools[..last], post, g);
      if g in Asked(routed, tools, post) && g !in Asked(routed, tools[..last], post) {
        assert ClaimOf(routed, tools[last]) == Ok(Web(post, g)) && tools[last] in tools;
      }
      if exists t <- tools :: ClaimOf(routed, t) == Ok(Web(post, g)) {
        var t :| t in tools && ClaimOf(routed, t) == Ok(Web(post, g));
        assert t in tools[..last] || t == tools[last];
      }
    }
  }

  lemma MeetIsBelow(slot: Option<Grant>, gs: seq<Grant>, g: Grant)
    requires IsMeet(slot, gs) && g in gs
    ensures slot.value.requests <= g.requests && slot.value.responseBytes <= g.responseBytes
    ensures slot.value.timeoutMs <= g.timeoutMs && slot.value.bodyBytes <= g.bodyBytes
    ensures forall n :: Admits(slot.value.hosts, n) ==> Admits(g.hosts, n)
  {
    var i :| 0 <= i < |gs| && gs[i] == g;
    LeastIsTheFloor(Requests(gs));
    LeastIsTheFloor(ResponseBytes(gs));
    LeastIsTheFloor(Timeouts(gs));
    LeastIsTheFloor(BodyBytes(gs));
    assert Requests(gs)[i] in Requests(gs) && ResponseBytes(gs)[i] in ResponseBytes(gs);
    assert Timeouts(gs)[i] in Timeouts(gs) && BodyBytes(gs)[i] in BodyBytes(gs);
    forall n | Admits(slot.value.hosts, n) ensures Admits(g.hosts, n) { assert AllAdmit(gs, n); }
  }

  /** What a grant for a method may do, against one tool of that method. */
  ghost predicate Under(g: Grant, l: Limits, argumentBytes: nat) {
    && g.requests <= l.maxRequests && g.responseBytes <= l.maxResponseBytes && g.timeoutMs <= l.timeoutMillis
    && g.bodyBytes <= argumentBytes && g.bodyBytes <= POST_BODY_BYTES
    && forall n :: Admits(g.hosts, n) ==> Admits(l.allowHosts, n)
  }

  /** Never beyond any signed limit or any declared one: hosts, requests, bytes,
      timeouts and body. */
  lemma AuthorityIsNeverWidened(routed: bool, tools: seq<Tool>, t: Tool)
    requires t in tools && Derived(routed, tools).Ok? && ClaimOf(routed, t).Ok? && ClaimOf(routed, t).value.Web?
    ensures Derived(routed, tools).value.Some?
    ensures var p := Derived(routed, tools).value.value;
            var slot := if ClaimOf(routed, t).value.post then p.post else p.get;
            && slot.Some?
            && Under(slot.value, t.binding.side.https.limits, t.binding.argumentBytes.value)
            && Under(slot.value, t.material.side.https.limits, t.binding.argumentBytes.value)
  {
    var c := ClaimOf(routed, t).value;
    AuthorityIsTheMeet(routed, tools);
    AskedBySome(routed, tools, c.post, c.grant);
    var p := Derived(routed, tools).value;
    MeetIsBelow(if c.post then p.value.post else p.value.get, Asked(routed, tools, c.post), c.grant);
    WithinIsInclusion(t.binding.side.https.limits.allowHosts, t.material.side.https.limits.allowHosts);
  }

  /** Two slots of the same reach: hosts as sets of names, ceilings as numbers. */
  ghost predicate SameReach(a: Option<Grant>, b: Option<Grant>) {
    && (a.Some? <==> b.Some?)
    && (a.Some? ==>
          && (forall n :: Admits(a.value.hosts, n) <==> Admits(b.value.hosts, n))
          && a.value.(hosts := []) == b.value.(hosts := []))
  }

  lemma SameAskedSameMeet(a: Option<Grant>, b: Option<Grant>, gs: seq<Grant>, hs: seq<Grant>)
    requires IsMeet(a, gs) && IsMeet(b, hs) && forall g :: g in gs <==> g in hs
    ensures SameReach(a, b)
  {
    assert forall i :: 0 <= i < |gs| ==> gs[i] in gs && gs[i] in hs;
    assert forall i :: 0 <= i < |hs| ==> hs[i] in hs && hs[i] in gs;
    if gs != [] {
      assert gs[0] in hs;
      forall n ensures AllAdmit(gs, n) <==> AllAdmit(hs, n) {}
      Columns(gs, hs);
      Columns(hs, gs);
      SameMembersSameLeast(Requests(gs), Requests(hs));
      SameMembersSameLeast(ResponseBytes(gs), ResponseBytes(hs));
      SameMembersSameLeast(Timeouts(gs), Timeouts(hs));
      SameMembersSameLeast(BodyBytes(gs), BodyBytes(hs));
    }
  }

  lemma Columns(a: seq<Grant>, b: seq<Grant>)
    requires forall g <- a :: g in b
    ensures forall x <- Requests(a) :: x in Requests(b)
    ensures forall x <- ResponseBytes(a) :: x in ResponseBytes(b)
    ensures forall x <- Timeouts(a) :: x in Timeouts(b)
    ensures forall x <- BodyBytes(a) :: x in BodyBytes(b)
  {
    forall i | 0 <= i < |a| ensures && a[i].requests in Requests(b) && a[i].responseBytes in ResponseBytes(b)
                                   && a[i].timeoutMs in Timeouts(b) && a[i].bodyBytes in BodyBytes(b)
    {
      assert a[i] in b;
      var j :| 0 <= j < |b| && b[j] == a[i];
      assert Requests(b)[j] == a[i].requests && ResponseBytes(b)[j] == a[i].responseBytes;
      assert Timeouts(b)[j] == a[i].timeoutMs && BodyBytes(b)[j] == a[i].bodyBytes;
    }
  }

  /** Acceptance, the hosts admitted and the ceilings do not depend on the order of
      the tools, nor on naming one twice. */
  lemma ToolOrderDoesNotMatter(routed: bool, a: seq<Tool>, b: seq<Tool>)
    requires forall t :: t in a <==> t in b
    ensures Derived(routed, a).Ok? <==> Derived(routed, b).Ok?
    ensures Derived(routed, a).Ok? ==>
              var p, q := Derived(routed, a).value, Derived(routed, b).value;
              && (p.Some? <==> q.Some?)
              && (p.Some? ==> SameReach(p.value.get, q.value.get) && SameReach(p.value.post, q.value.post))
  {
    AuthorityIsTheMeet(routed, a);
    AuthorityIsTheMeet(routed, b);
    SameAsked(routed, a, b, false);
    SameAsked(routed, a, b, true);
    SameCompatible(Asked(routed, a, false), Asked(routed, b, false));
    SameCompatible(Asked(routed, a, true), Asked(routed, b, true));
    if Derived(routed, a).Ok? {
      var p, q := Derived(routed, a).value, Derived(routed, b).value;
      if p.Some? && q.Some? {
        SameAskedSameMeet(p.value.get, q.value.get, Asked(routed, a, false), Asked(routed, b, false));
        SameAskedSameMeet(p.value.post, q.value.post, Asked(routed, a, true), Asked(routed, b, true));
      }
    }
  }

  lemma SameAsked(routed: bool, a: seq<Tool>, b: seq<Tool>, post: bool)
    requires forall t :: t in a <==> t in b
    ensures forall g :: g in Asked(routed, a, post) <==> g in Asked(routed, b, post)
    ensures Asked(routed, a, post) == [] <==> Asked(routed, b, post) == []
  {
    forall g ensures g in Asked(routed, a, post) <==> g in Asked(routed, b, post) {
      AskedBySome(routed, a, post, g);
      AskedBySome(routed, b, post, g);
    }
    NoMembersNoLength(Asked(routed, a, post), Asked(routed, b, post));
  }

  lemma NoMembersNoLength(gs: seq<Grant>, hs: seq<Grant>)
    requires forall g :: g in gs <==> g in hs
    ensures gs == [] <==> hs == []
  {
    if gs != [] { assert gs[0] in hs; }
    if hs != [] { assert hs[0] in gs; }
  }

  lemma SameCompatible(gs: seq<Grant>, hs: seq<Grant>)
    requires forall g :: g in gs <==> g in hs
    ensures Compatible(gs) <==> Compatible(hs)
  {
    forall n ensures AllAdmit(gs, n) <==> AllAdmit(hs, n) {}
  }

  // --------------------------------------------------------------- broker grants

  datatype BrokerGrant = BrokerGrant(
    allowHosts: seq<string>, maxRequests: nat, maxBodyBytes: nat, maxResponseBytes: nat, timeout: nat)

  /** `Policy::grants`, with the remaining time in milliseconds. A GET carries no
      body. */
  function Grants(p: Policy, remaining: nat): (Option<BrokerGrant>, Option<BrokerGrant>) {
    (match p.get
     case None => None
     case Some(g) => Some(BrokerGrant(g.hosts, g.requests, 0, g.responseBytes, Min(g.timeoutMs, remaining))),
     match p.post
     case None => None
     case Some(g) => Some(BrokerGrant(g.hosts, g.requests, g.bodyBytes, g.responseBytes, Min(g.timeoutMs, remaining))))
  }

  /** The tool asks for web authority by this method. */
  predicate Uses(routed: bool, t: Tool, post: bool) {
    ClaimOf(routed, t).Ok? && ClaimOf(routed, t).value.Web? && ClaimOf(routed, t).value.post == post
  }

  /** What the broker really receives for a method: exactly the names that every tool
      of the method was signed for, under the least of each signed ceiling, for no
      longer than the work has left, and a body only for a POST. */
  ghost predicate IsBrokerMeet(grant: Option<BrokerGrant>, gs: seq<Grant>, post: bool, remaining: nat) {
    if gs == [] then grant.None?
    else
      && grant.Some? && ScopedHosts(grant.value.allowHosts)
      && (forall n :: Admits(grant.value.allowHosts, n) <==> AllAdmit(gs, n))
      && grant.value.maxRequests == Least(Requests(gs))
      && grant.value.maxResponseBytes == Least(ResponseBytes(gs))
      && grant.value.maxBodyBytes == (if post then Least(BodyBytes(gs)) else 0)
      && grant.value.timeout == Min(Least(Timeouts(gs)), remaining)
  }

  lemma BrokerGrantsAreTheMeet(routed: bool, tools: seq<Tool>, remaining: nat)
    requires Derived(routed, tools).Ok? && Derived(routed, tools).value.Some?
    ensures var (get, post) := Grants(Derived(routed, tools).value.value, remaining);
            && IsBrokerMeet(get, Asked(routed, tools, false), false, remaining)
            && IsBrokerMeet(post, Asked(routed, tools, true), true, remaining)
  {
    AuthorityIsTheMeet(routed, tools);
  }

  /** So, tool by tool: never a name, a request, a byte or a millisecond that one of
      them was not signed for, and always within the contract's own bounds. */
  lemma BrokerNeverExceeds(routed: bool, tools: seq<Tool>, t: Tool, remaining: nat)
    requires t in tools && Derived(routed, tools).Ok? && ClaimOf(routed, t).Ok? && ClaimOf(routed, t).value.Web?
    ensures Derived(routed, tools).value.Some?
    ensures var post := t.material.entry.PostEntry?;
            var both := Grants(Derived(routed, tools).value.value, remaining);
            var grant := if post then both.1 else both.0;
            var signed := t.binding.side.https.limits;
            && grant.Some?
            && (forall n :: Admits(grant.value.allowHosts, n) ==> Admits(signed.allowHosts, n))
            && grant.value.maxRequests <= signed.maxRequests <= 16
            && grant.value.maxResponseBytes <= signed.maxResponseBytes <= 65_536
            && grant.value.timeout <= signed.timeoutMillis <= 30_000 && grant.value.timeout <= remaining
            && grant.value.maxBodyBytes <= (if post then Min(t.binding.argumentBytes.value, 4096) else 0)
  {
    AuthorityIsNeverWidened(routed, tools, t);
    ToolAcceptedIff(routed, t);
  }

  /** A method gets a broker grant exactly when some tool asked for it, and the
      grant ends no later than the work and than any tool allows. */
  lemma GrantsEndInTime(routed: bool, tools: seq<Tool>, remaining: nat, post: bool)
    requires Derived(routed, tools).Ok? && Derived(routed, tools).value.Some?
    ensures var both := Grants(Derived(routed, tools).value.value, remaining);
            var grant := if post then both.1 else both.0;
            && (grant.Some? <==> exists t <- tools :: Uses(routed, t, post))
            && (grant.Some? ==> grant.value.timeout <= remaining)
            && (forall t <- tools :: Uses(routed, t, post) ==>
                  grant.value.timeout <= t.binding.side.https.limits.timeoutMillis)
  {
    AuthorityIsTheMeet(routed, tools);
    var asked := Asked(routed, tools, post);
    if asked != [] {
      assert asked[0] in asked;
      AskedBySome(routed, tools, post, asked[0]);
      var t :| t in tools && ClaimOf(routed, t) == Ok(Web(post, asked[0]));
      assert Uses(routed, t, post);
    }
    var p := Derived(routed, tools).value.value;
    forall t <- tools | Uses(routed, t, post)
      ensures asked != []
      ensures (if post then p.post else p.get).value.timeoutMs <= t.binding.side.https.limits.timeoutMillis
    {
      AskedBySome(routed, tools, post, ClaimOf(routed, t).value.grant);
      AuthorityIsNeverWidened(routed, tools, t);
    }
  }
}
