/** Scoped artifact authority (dispatch_scoped_artifacts.rs): one policy for a
    cell, the meet of what every selected tool was signed for. Decisions and
    materials are taken as already decoded. */
module ScopedArtifacts {
  import opened Common
  import opened Ceilings

  datatype Operation = ReadData | WriteData | ListData | AppendData | SearchData | DeleteData

  datatype Effects = NoEffects | ExternalSideEffects | OtherEffects

  datatype Limits = Limits(
    operation: Operation, operations: nat, files: nat, fileBytes: nat, totalBytes: nat)

  /** A JSON field: absent or null, of the wrong shape, or decoded. */
  datatype Field = Null | Malformed | Present(limits: Limits)

  /** The limits of one tool as the decision signs them or the material declares them. */
  datatype Side = Side(artifacts: Field, workspaceNone: bool, httpsNull: bool, effects: Effects)

  datatype Tool = Tool(signed: Side, declared: Side)

  datatype Refusal = Unsupported | BindingMismatch | OutOfRange

  datatype Policy = Policy(
    granted: set<Operation>, operations: nat, files: nat, fileBytes: nat, totalBytes: nat)

  function EffectsOf(o: Operation): Effects {
    match o
    case WriteData => ExternalSideEffects
    case AppendData => ExternalSideEffects
    case DeleteData => ExternalSideEffects
    case _ => NoEffects
  }

  predicate InRange(operations: nat, files: nat, fileBytes: nat, totalBytes: nat) {
    && 1 <= operations <= 64 && 1 <= files <= 256 && 1 <= fileBytes <= 4096
    && fileBytes <= totalBytes <= 1_048_576
  }

  predicate LimitsInRange(l: Limits) {
    InRange(l.operations, l.files, l.fileBytes, l.totalBytes)
  }

  /** `limits`. */
  function Checked(f: Field): Result<Limits, Refusal> {
    if !f.Present? then Err(Unsupported)
    else if !LimitsInRange(f.limits) then Err(OutOfRange)
    else Ok(f.limits)
  }

  predicate Within(signed: Limits, declared: Limits) {
    && signed.operation == declared.operation && signed.operations <= declared.operations
    && signed.files <= declared.files && signed.fileBytes <= declared.fileBytes
    && signed.totalBytes <= declared.totalBytes
  }

  /** What one tool brings: nothing, its signed limits, or a refusal. `routed` says
      that the decision names a model route. */
  function Claim(routed: bool, t: Tool): Result<Option<Limits>, Refusal> {
    if t.signed.artifacts.Null? && t.declared.artifacts.Null? then Ok(None)
    else if !routed || !t.signed.workspaceNone || !t.declared.workspaceNone
            || !t.signed.httpsNull || !t.declared.httpsNull then Err(Unsupported)
    else
      match Checked(t.signed.artifacts)
      case Err(e) => Err(e)
      case Ok(signed) =>
        match Checked(t.declared.artifacts)
        case Err(e) => Err(e)
        case Ok(declared) =>
          if t.signed.effects != EffectsOf(signed.operation) || t.declared.effects != EffectsOf(signed.operation)
          then Err(Unsupported)
          else if !Within(signed, declared) then Err(BindingMismatch)
          else Ok(Some(signed))
  }

  /** Limits that stand on their own, with the effects their operation has: outside the
      cell exactly for the operations that change data. */
  predicate Sound(side: Side) {
    && side.artifacts.Present? && LimitsInRange(side.artifacts.limits)
    && side.effects == (if side.artifacts.limits.operation in {WriteData, AppendData, DeleteData}
                        then ExternalSideEffects else NoEffects)
    && side.workspaceNone && side.httpsNull
  }

  /** Exactly which tools are accepted, and what they bring: those without artifact
      limits on either side bring nothing; any other needs a model route, sound
      limits on both sides for one operation, and nothing signed above what is
      declared. */
  lemma ToolAcceptedIff(routed: bool, t: Tool)
    ensures var asks := !(t.signed.artifacts.Null? && t.declared.artifacts.Null?);
            && (Claim(routed, t).Ok? <==>
                  asks ==> routed && Sound(t.signed) && Sound(t.declared)
                           && Within(t.signed.artifacts.limits, t.declared.artifacts.limits))
            && (Claim(routed, t).Ok? ==>
                  Claim(routed, t).value == if asks then Some(t.signed.artifacts.limits) else None)
  {
  }

  /** The bounds of the contract. */
  predicate Bounded(l: Limits) {
    && 1 <= l.operations <= 64 && 1 <= l.files <= 256 && 1 <= l.fileBytes <= 4096
    && l.fileBytes <= l.totalBytes <= 1_048_576
  }

  /** Which refusal a tool gets: out of range when the signed numbers are off, or the
      declared ones behind signed ones in range; a mismatch when both sides are sound
      for the signed operation and something is signed above what is declared; unsupported for the rest. */
  lemma ToolRefusedFor(routed: bool, t: Tool)
    ensures var plain := routed && t.signed.workspaceNone && t.declared.workspaceNone
                         && t.signed.httpsNull && t.declared.httpsNull && t.signed.artifacts.Present?;
            && (Claim(routed, t) == Err(OutOfRange) <==>
                  && plain
                  && (!Bounded(t.signed.artifacts.limits)
                      || (t.declared.artifacts.Present? && !Bounded(t.declared.artifacts.limits))))
            && (Claim(routed, t) == Err(BindingMismatch) <==>
                  && plain && Sound(t.signed)
                  && t.declared.artifacts.Present? && Bounded(t.declared.artifacts.limits)
                  && t.declared.effects == t.signed.effects
                  && !(&& t.signed.artifacts.limits.operation == t.declared.artifacts.limits.operation
                       && t.signed.artifacts.limits.operations <= t.declared.artifacts.limits.operations
                       && t.signed.artifacts.limits.files <= t.declared.artifacts.limits.files
                       && t.signed.artifacts.limits.fileBytes <= t.declared.artifacts.limits.fileBytes
                       && t.signed.artifacts.limits.totalBytes <= t.declared.artifacts.limits.totalBytes))
  {
  }

  function Added(policy: Option<Policy>, l: Limits): Policy {
    match policy
    case None => Policy({l.operation}, l.operations, l.files, l.fileBytes, l.totalBytes)
    case Some(p) =>
      Policy(p.granted + {l.operation}, Min(p.operations, l.operations), Min(p.files, l.files),
             Min(p.fileBytes, l.fileBytes), Min(p.totalBytes, l.totalBytes))
  }

  function Derived(routed: bool, tools: seq<Tool>): Result<Option<Policy>, Refusal> {
    if tools == [] then Ok(None)
    else
      match Derived(routed, tools[..|tools| - 1])
      case Err(e) => Err(e)
      case Ok(policy) =>
        match Claim(routed, tools[|tools| - 1])
        case Err(e) => Err(e)
        case Ok(None) => Ok(policy)
        case Ok(Some(l)) => Ok(Some(Added(policy, l)))
  }

  /** The decision signs, the materials declare. */
  function Zip(materials: seq<Side>, tools: seq<Side>): (r: seq<Tool>)
    requires |materials| == |tools|
    ensures |r| == |tools| && forall i :: 0 <= i < |r| ==> r[i].signed == tools[i] && r[i].declared == materials[i]
  {
    seq(|tools|, i requires 0 <= i < |tools| => Tool(tools[i], materials[i]))
  }

  /** `derive`; arrays that are not there are `None`. */
  method Derive(execution: Option<seq<Side>>, decision: Option<seq<Side>>, routed: bool)
    returns (r: Result<Option<Policy>, Refusal>)
    ensures execution.None? || decision.None? ==> r == Err(Unsupported)
    ensures execution.Some? && decision.Some? ==>
              r == if |execution.value| != |decision.value| then Err(BindingMismatch)
                   else Derived(routed, Zip(execution.value, decision.value))
  {
    if execution.None? || decision.None? { return Err(Unsupported); }
    var materials, tools := execution.value, decision.value;
    if |materials| != |tools| { return Err(BindingMismatch); }
    ghost var zipped := Zip(materials, tools);
    var policy: Option<Policy> := None;
    for i := 0 to |tools|
      invariant Derived(routed, zipped[..i]) == Ok(policy)
    {
      assert zipped[..i + 1][..i] == zipped[..i];
      var claim := Claim(routed, Tool(tools[i], materials[i]));
      match claim {
        case Err(e) =>
          FirstErrorStays((ts: seq<Tool>) => Derived(routed, ts), zipped, i + 1);
          return Err(e);
        case Ok(None) =>
        case Ok(Some(l)) =>
          var current := if policy.Some? then policy.value
                         else Policy({}, l.operations, l.files, l.fileBytes, l.totalBytes);
          current := current.(granted := current.granted + {l.operation});
          current := current.(operations := Min(current.operations, l.operations), files := Min(current.files, l.files),
                              fileBytes := Min(current.fileBytes, l.fileBytes),
                              totalBytes := Min(current.totalBytes, l.totalBytes));
          assert {} + {l.operation} == {l.operation};
          policy := Some(current);
      }
    }
    assert zipped[..|tools|] == zipped;
    r := Ok(policy);
  }

  // ---------------------------------------------------------------- the meet

  predicate AllAccepted(routed: bool, tools: seq<Tool>) {
    forall t <- tools :: Claim(routed, t).Ok?
  }

  /** The signed limits of the tools that bring any. */
  function Claims(routed: bool, tools: seq<Tool>): seq<Limits> {
    if tools == [] then []
    else
      Claims(routed, tools[..|tools| - 1])
      + match Claim(routed, tools[|tools| - 1])
        case Ok(Some(l)) => [l]
        case _ => []
  }

  function Operations(cs: seq<Limits>): seq<nat> { seq(|cs|, i requires 0 <= i < |cs| => cs[i].operations) }
  function Files(cs: seq<Limits>): seq<nat> { seq(|cs|, i requires 0 <= i < |cs| => cs[i].files) }
  function FileBytes(cs: seq<Limits>): seq<nat> { seq(|cs|, i requires 0 <= i < |cs| => cs[i].fileBytes) }
  function TotalBytes(cs: seq<Limits>): seq<nat> { seq(|cs|, i requires 0 <= i < |cs| => cs[i].totalBytes) }

  ghost function Named(cs: seq<Limits>): set<Operation> {
    set c <- cs :: c.operation
  }

  lemma NamedAdds(cs: seq<Limits>, l: Limits)
    ensures Named(cs + [l]) == Named(cs) + {l.operation}
  {
    forall o ensures o in Named(cs + [l]) <==> o in Named(cs) || o == l.operation {
      if o in Named(cs) {
        var c :| c in cs && c.operation == o;
        assert c in cs + [l];
      }
      assert l in cs + [l];
    }
  }

  /** The meet: every named operation, and the least of each ceiling. */
  ghost function Meet(cs: seq<Limits>): Option<Policy> {
    if cs == [] then None
    else Some(Policy(Named(cs), Least(Operations(cs)), Least(Files(cs)),
                     Least(FileBytes(cs)), Least(TotalBytes(cs))))
  }

  lemma MeetAdds(cs: seq<Limits>, l: Limits)
    ensures Meet(cs + [l]) == Some(Added(Meet(cs), l))
  {
    NamedAdds(cs, l);
    assert Operations(cs + [l]) == Operations(cs) + [l.operations] && Files(cs + [l]) == Files(cs) + [l.files];
    assert FileBytes(cs + [l]) == FileBytes(cs) + [l.fileBytes];
    assert TotalBytes(cs + [l]) == TotalBytes(cs) + [l.totalBytes];
    if cs == [] {
      assert Named(cs) == {} && cs + [l] == [l] && Named([l]) == {l.operation};
      assert Operations([l]) == [l.operations] && Files([l]) == [l.files];
      assert FileBytes([l]) == [l.fileBytes] && TotalBytes([l]) == [l.totalBytes];
    } else {
      LeastAppend(Operations(cs), l.operations);
      LeastAppend(Files(cs), l.files);
      LeastAppend(FileBytes(cs), l.fileBytes);
      LeastAppend(TotalBytes(cs), l.totalBytes);
    }
  }

  /** Artifact authority is the exact meet: a decision is accepted exactly when
      every tool is, one by one, and then the policy is the union of the operations
      and the least of each signed ceiling. */
  lemma {:induction false} AuthorityIsTheMeet(routed: bool, tools: seq<Tool>)
    ensures Derived(routed, tools).Ok? <==> AllAccepted(routed, tools)
    ensures AllAccepted(routed, tools) ==> Derived(routed, tools) == Ok(Meet(Claims(routed, tools)))
  {
    if tools != [] {
      var last := |tools| - 1;
      AuthorityIsTheMeet(routed, tools[..last]);
      assert tools == tools[..last] + [tools[last]];
      var c := Claim(routed, tools[last]);
      if AllAccepted(routed, tools[..last]) && c.Ok? && c.value.Some? {
        MeetAdds(Claims(routed, tools[..last]), c.value.value);
      }
      assert AllAccepted(routed, tools) <==> AllAccepted(routed, tools[..last]) && c.Ok?;
      assert Claims(routed, tools[..last]) + [] == Claims(routed, tools[..last]);
    }
  }

  lemma {:induction false} ClaimsAreSigned(routed: bool, tools: seq<Tool>, l: Limits)
    ensures l in Claims(routed, tools) <==> exists t <- tools :: Claim(routed, t) == Ok(Some(l))
  {
    if tools != [] {
      var last := |tools| - 1;
      assert tools == tools[..last] + [tools[last]];
      ClaimsAreSigned(routed, tools[..last], l);
      if l in Claims(routed, tools) && !(l in Claims(routed, tools[..last])) {
        assert Claim(routed, tools[last]) == Ok(Some(l)) && tools[last] in tools;
      }
      if exists t <- tools :: Claim(routed, t) == Ok(Some(l)) {
        var t :| t in tools && Claim(routed, t) == Ok(Some(l));
        assert t in tools[..last] || t == tools[last];
      }
    }
  }

  /** Never above any signed or declared limit, and within every range the single
      tools were held to, total bytes at least file bytes included. */
  lemma AuthorityIsNeverWidened(routed: bool, tools: seq<Tool>)
    requires Derived(routed, tools).Ok? && Derived(routed, tools).value.Some?
    ensures var p := Derived(routed, tools).value.value;
            && 1 <= p.operations <= 64 && 1 <= p.files <= 256 && 1 <= p.fileBytes <= 4096
            && p.fileBytes <= p.totalBytes <= 1_048_576
            && p.granted != {}
            && forall t <- tools :: Claim(routed, t).Ok? && Claim(routed, t).value.Some? ==>
                 && t.signed.artifacts.limits.operation in p.granted
                 && p.operations <= t.signed.artifacts.limits.operations <= t.declared.artifacts.limits.operations
                 && p.files <= t.signed.artifacts.limits.files <= t.declared.artifacts.limits.files
                 && p.fileBytes <= t.signed.artifacts.limits.fileBytes <= t.declared.artifacts.limits.fileBytes
                 && p.totalBytes <= t.signed.artifacts.limits.totalBytes <= t.declared.artifacts.limits.totalBytes
  {
    AuthorityIsTheMeet(routed, tools);
    var cs := Claims(routed, tools);
    forall c <- cs ensures LimitsInRange(c) {
      ClaimsAreSigned(routed, tools, c);
    }
    MeetStaysInRange(cs);
    forall t <- tools | Claim(routed, t).Ok? && Claim(routed, t).value.Some? ensures
      && t.signed.artifacts.limits in cs && Within(t.signed.artifacts.limits, t.declared.artifacts.limits)
    {
      ClaimsAreSigned(routed, tools, t.signed.artifacts.limits);
    }
    forall c <- cs ensures && c.operation in Meet(cs).value.granted && Meet(cs).value.operations <= c.operations
      && Meet(cs).value.files <= c.files && Meet(cs).value.fileBytes <= c.fileBytes
      && Meet(cs).value.totalBytes <= c.totalBytes
    {
      MeetIsBelow(cs, c);
    }
  }

  lemma MeetIsBelow(cs: seq<Limits>, c: Limits)
    requires c in cs
    ensures var p := Meet(cs).value;
            && c.operation in p.granted && p.operations <= c.operations && p.files <= c.files
            && p.fileBytes <= c.fileBytes && p.totalBytes <= c.totalBytes
  {
    var i :| 0 <= i < |cs| && cs[i] == c;
    LeastIsTheFloor(Operations(cs));
    LeastIsTheFloor(Files(cs));
    LeastIsTheFloor(FileBytes(cs));
    LeastIsTheFloor(TotalBytes(cs));
    assert Operations(cs)[i] in Operations(cs) && Files(cs)[i] in Files(cs);
    assert FileBytes(cs)[i] in FileBytes(cs) && TotalBytes(cs)[i] in TotalBytes(cs);
  }

  lemma MeetStaysInRange(cs: seq<Limits>)
    requires cs != [] && forall c <- cs :: LimitsInRange(c)
    ensures var p := Meet(cs).value; InRange(p.operations, p.files, p.fileBytes, p.totalBytes)
    ensures Meet(cs).value.granted != {}
  {
    LeastIsTheFloor(Operations(cs));
    LeastIsTheFloor(Files(cs));
    LeastIsTheFloor(FileBytes(cs));
    LeastIsTheFloor(TotalBytes(cs));
    var i :| 0 <= i < |cs| && Operations(cs)[i] == Least(Operations(cs));
    var j :| 0 <= j < |cs| && Files(cs)[j] == Least(Files(cs));
    var k :| 0 <= k < |cs| && TotalBytes(cs)[k] == Least(TotalBytes(cs));
    var m :| 0 <= m < |cs| && FileBytes(cs)[m] == Least(FileBytes(cs));
    assert cs[i] in cs && cs[j] in cs && cs[k] in cs && cs[m] in cs;
    assert FileBytes(cs)[k] in FileBytes(cs);
    assert cs[0].operation in Meet(cs).value.granted;
  }

  lemma SameClaimsSameMeet(a: seq<Limits>, b: seq<Limits>)
    requires forall l :: l in a <==> l in b
    ensures Meet(a) == Meet(b)
  {
    if a == [] {
      assert forall i :: 0 <= i < |b| ==> b[i] in b;
    } else {
      assert a[0] in a;
      Columns(a, b);
      Columns(b, a);
      forall o ensures o in Named(a) <==> o in Named(b) {
        if o in Named(a) { var c :| c in a && c.operation == o; assert c in b; }
        if o in Named(b) { var c :| c in b && c.operation == o; assert c in a; }
      }
      assert Named(a) == Named(b) && b != [];
      SameMembersSameLeast(Operations(a), Operations(b));
      SameMembersSameLeast(Files(a), Files(b));
      SameMembersSameLeast(FileBytes(a), FileBytes(b));
      SameMembersSameLeast(TotalBytes(a), TotalBytes(b));
    }
  }

  lemma Columns(a: seq<Limits>, b: seq<Limits>)
    requires forall l <- a :: l in b
    ensures forall x <- Operations(a) :: x in Operations(b)
    ensures forall x <- Files(a) :: x in Files(b)
    ensures forall x <- FileBytes(a) :: x in FileBytes(b)
    ensures forall x <- TotalBytes(a) :: x in TotalBytes(b)
  {
    forall i | 0 <= i < |a| ensures && a[i].operations in Operations(b) && a[i].files in Files(b)
                                   && a[i].fileBytes in FileBytes(b) && a[i].totalBytes in TotalBytes(b)
    {
      assert a[i] in b;
      var j :| 0 <= j < |b| && b[j] == a[i];
      assert Operations(b)[j] == a[i].operations && Files(b)[j] == a[i].files;
      assert FileBytes(b)[j] == a[i].fileBytes && TotalBytes(b)[j] == a[i].totalBytes;
    }
  }

  /** The order of the tools, and naming one twice, change nothing. */
  lemma ToolOrderDoesNotMatter(routed: bool, a: seq<Tool>, b: seq<Tool>)
    requires forall t :: t in a <==> t in b
    ensures Derived(routed, a).Ok? <==> Derived(routed, b).Ok?
    ensures Derived(routed, a).Ok? ==> Derived(routed, a) == Derived(routed, b)
  {
    AuthorityIsTheMeet(routed, a);
    AuthorityIsTheMeet(routed, b);
    forall l ensures l in Claims(routed, a) <==> l in Claims(routed, b) {
      ClaimsAreSigned(routed, a, l);
      ClaimsAreSigned(routed, b, l);
    }
    SameClaimsSameMeet(Claims(routed, a), Claims(routed, b));
  }
}
