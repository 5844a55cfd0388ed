/** Tool host allowlists, as the scoped decisions (dispatch_scoped_https.rs) and
    the native model profiles (dispatch_parent_model.rs) check them. */
module Hosts {
  import opened Common
  import opened Split

  const ANY_PUBLIC_HOST := "*"

  /** Exactly `["*"]`: every public host. */
  predicate AnyHost(hosts: seq<string>) {
    |hosts| == 1 && hosts[0] == ANY_PUBLIC_HOST
  }

  predicate LabelChar(c: char) {
    'a' <= c <= 'z' || '0' <= c <= '9' || c == '-'
  }

  predicate Label(part: string) {
    && 1 <= |part| <= 63 && part[0] != '-' && part[|part| - 1] != '-'
    && forall c <- part :: LabelChar(c)
  }

  predicate AllLabels(parts: seq<string>) {
    forall part <- parts :: Label(part)
  }

  /** A lower-case DNS name of at least two labels. */
  predicate Name(host: string) {
    |host| <= 253 && '.' in host && AllLabels(SplitAll(host, '.'))
  }

  /** Letters, digits, hyphens and dots. */
  ghost predicate Lettered(s: string) {
    forall i :: 0 <= i < |s| ==>
      'a' <= s[i] <= 'z' || '0' <= s[i] <= '9' || s[i] == '-' || s[i] == '.'
  }

  predicate Mark(c: char) {
    c == '.' || c == '-'
  }

  /** No dot or hyphen at either end, no dot beside a dot or a hyphen. */
  ghost predicate Parted(s: string) {
    && s != "" && !Mark(s[0]) && !Mark(s[|s| - 1])
    && forall i :: 0 < i < |s| - 1 && s[i] == '.' ==> !Mark(s[i - 1]) && !Mark(s[i + 1])
  }

  ghost predicate DotSoon(s: string, i: nat) {
    exists j :: i <= j < i + 64 && j < |s| && s[j] == '.'
  }

  /** Never 64 characters without a dot. */
  ghost predicate Dotted(s: string) {
    forall i: nat :: i + 64 <= |s| ==> DotSoon(s, i)
  }

  lemma OneLabel(s: string)
    requires '.' !in s
    ensures Label(s) <==> Lettered(s) && Parted(s) && Dotted(s)
  {
    if |s| >= 64 { assert !DotSoon(s, 0); }
    if Label(s) {
      forall i | 0 <= i < |s| ensures LabelChar(s[i]) { assert s[i] in s; }
    }
  }

  lemma LetteredJoin(a: string, b: string)
    ensures Lettered(a + ("." + b)) <==> Lettered(a) && Lettered(b)
  {
    var s, n := a + ("." + b), |a|;
    assert forall i :: 0 <= i < n ==> s[i] == a[i];
    assert forall i :: 0 <= i < |b| ==> s[n + 1 + i] == b[i];
    if Lettered(a) && Lettered(b) {
      forall i | 0 <= i < |s|
        ensures 'a' <= s[i] <= 'z' || '0' <= s[i] <= '9' || s[i] == '-' || s[i] == '.'
      {
        if i > n { assert s[i] == b[i - n - 1]; }
      }
    }
  }

  lemma PartedFrom(a: string, b: string)
    requires Parted(a) && Parted(b)
    ensures Parted(a + ("." + b))
  {
    var s, n := a + ("." + b), |a|;
    forall i | 0 < i < |s| - 1 && s[i] == '.' ensures !Mark(s[i - 1]) && !Mark(s[i + 1]) {
      if i > n {
        assert s[i] == b[i - n - 1] && s[i + 1] == b[i - n];
        assert i > n + 1 && s[i - 1] == b[i - n - 2];
      }
    }
  }

  lemma PartedParts(a: string, b: string)
    requires '.' !in a && Parted(a + ("." + b))
    ensures Parted(a) && Parted(b)
  {
    var s, n := a + ("." + b), |a|;
    assert s[n] == '.' && s[|s| - 1] != '.' && s[0] != '.';
    assert a[0] == s[0] && a[n - 1] == s[n - 1];
    assert b[0] == s[n + 1] && b[|b| - 1] == s[|s| - 1];
    forall i | 0 < i < |b| - 1 && b[i] == '.' ensures !Mark(b[i - 1]) && !Mark(b[i + 1]) {
      assert s[n + 1 + i] == '.' && s[n + i] == b[i - 1] && s[n + 2 + i] == b[i + 1];
    }
  }

  lemma DottedJoin(a: string, b: string)
    requires '.' !in a
    ensures Dotted(a + ("." + b)) <==> |a| < 64 && Dotted(b)
  {
    var s, n := a + ("." + b), |a|;
    assert s[n] == '.';
    assert forall j :: n < j < |s| ==> s[j] == b[j - n - 1];
    if n >= 64 { assert !DotSoon(s, 0); }
    if |a| < 64 && Dotted(b) {
      forall i: nat | i + 64 <= |s| ensures DotSoon(s, i) {
        if i > n {
          assert DotSoon(b, i - n - 1);
          var j :| i - n - 1 <= j < i - n - 1 + 64 && j < |b| && b[j] == '.';
          assert s[n + 1 + j] == '.';
        }
      }
    }
    if Dotted(s) {
      forall i: nat | i + 64 <= |b| ensures DotSoon(b, i) {
        assert DotSoon(s, n + 1 + i);
        var j :| n + 1 + i <= j < n + 1 + i + 64 && j < |s| && s[j] == '.';
        assert b[j - n - 1] == '.';
      }
    }
  }

  /** A text without a dot, a dot, and anything behind it. */
  lemma SpelledJoin(a: string, b: string)
    requires '.' !in a
    ensures var s := a + ("." + b);
            Lettered(s) && Parted(s) && Dotted(s) <==> Label(a) && Lettered(b) && Parted(b) && Dotted(b)
  {
    OneLabel(a);
    LetteredJoin(a, b);
    DottedJoin(a, b);
    if Parted(a) && Parted(b) { PartedFrom(a, b); }
    if Parted(a + ("." + b)) { PartedParts(a, b); }
    if |a| >= 64 { assert !DotSoon(a, 0); }
  }

  lemma LabelsBehind(a: string, parts: seq<string>)
    ensures AllLabels([a] + parts) <==> Label(a) && AllLabels(parts)
  {
    assert forall part <- parts :: part in [a] + parts;
    assert a in [a] + parts;
  }

  lemma {:induction false} LabelsIff(s: string)
    ensures AllLabels(SplitAll(s, '.')) <==> Lettered(s) && Parted(s) && Dotted(s)
    decreases |s|
  {
    var k := IndexOf(s, '.');
    if k == |s| {
      assert s[..k] == s;
      LabelsBehind(s, []);
      OneLabel(s);
    } else {
      var a, b := s[..k], s[k + 1..];
      assert s == a + ("." + b);
      LabelsIff(b);
      LabelsBehind(a, SplitAll(b, '.'));
      SpelledJoin(a, b);
    }
  }

  /** Exactly which texts are names, character by character. */
  lemma NameIff(host: string)
    ensures Name(host) <==> |host| <= 253 && '.' in host && Lettered(host) && Parted(host) && Dotted(host)
  {
    LabelsIff(host);
  }

  /** `valid_hosts` of the scoped contract: `["*"]` or 1 to 16 distinct names. */
  predicate ScopedHosts(hosts: seq<string>) {
    1 <= |hosts| <= 16 && (AnyHost(hosts) || (Distinct(hosts) && forall h <- hosts :: Name(h)))
  }

  /** `valid_hosts` of the profiles: the same without the distinctness. */
  predicate ProfileHosts(hosts: seq<string>) {
    AnyHost(hosts) || (1 <= |hosts| <= 16 && forall h <- hosts :: Name(h))
  }

  /** The scoped check as it runs, with the set of names seen so far. */
  method CheckScopedHosts(hosts: seq<string>) returns (ok: bool)
    ensures ok <==> ScopedHosts(hosts)
  {
    if |hosts| == 0 || |hosts| > 16 { return false; }
    if AnyHost(hosts) { return true; }
    var seen: set<string> := {};
    for i := 0 to |hosts|
      invariant seen == set h | h in hosts[..i]
      invariant Distinct(hosts[..i]) && forall h <- hosts[..i] :: Name(h)
    {
      assert hosts[i] in hosts && hosts[..i + 1] == hosts[..i] + [hosts[i]];
      if !(|hosts[i]| <= 253 && '.' in hosts[i]) { return false; }
      if hosts[i] in seen {
        var j :| 0 <= j < i && hosts[j] == hosts[i];
        return false;
      }
      seen := seen + {hosts[i]};
      if !Name(hosts[i]) { return false; }
    }
    assert hosts[..|hosts|] == hosts;
    ok := true;
  }

  /** Whether an allowlist lets a name through. */
  predicate Admits(hosts: seq<string>, name: string) {
    AnyHost(hosts) || name in hosts
  }

  lemma StarIsNoName()
    ensures !Name(ANY_PUBLIC_HOST)
  {
  }

  /** The wildcard stands alone: it is a list of its own, in no other list, and only it
      admits every name. */
  lemma WildcardStandsAlone(hosts: seq<string>, name: string)
    ensures ScopedHosts(hosts) <==>
              hosts == ["*"] || (1 <= |hosts| <= 16 && Distinct(hosts) && forall h <- hosts :: Name(h))
    ensures ProfileHosts(hosts) <==> hosts == ["*"] || (1 <= |hosts| <= 16 && forall h <- hosts :: Name(h))
    ensures ScopedHosts(hosts) && "*" in hosts ==> hosts == ["*"]
    ensures Admits(hosts, name) <==> hosts == ["*"] || name in hosts
  {
    StarIsNoName();
  }

  /** The two checks agree but for repeated names. */
  lemma ScopedIsProfileWithoutRepeats(hosts: seq<string>)
    ensures ScopedHosts(hosts) <==> ProfileHosts(hosts) && Distinct(hosts)
  {
  }

  /** A shorter list of the same names stays valid. */
  lemma FewerHosts(hosts: seq<string>, fewer: seq<string>)
    requires ScopedHosts(hosts) && !AnyHost(hosts)
    requires fewer != [] && |fewer| <= |hosts| && Distinct(fewer) && forall h <- fewer :: h in hosts
    ensures ScopedHosts(fewer) && !AnyHost(fewer)
  {
    StarIsNoName();
    assert fewer[0] in fewer && Name(fewer[0]);
  }
}
