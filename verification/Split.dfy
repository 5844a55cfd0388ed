/** Splitting text at a character, as `str::split` and `str::split_once` do. */
module Split {
  import opened Common

  function IndexOf(s: string, c: char): (k: nat)
    ensures k <= |s| && (k < |s| ==> s[k] == c) && c !in s[..k]
  {
    if s == "" || s[0] == c then 0
    else
      var k := 1 + IndexOf(s[1..], c);
      assert s[..k] == [s[0]] + s[1..][..k - 1];
      k
  }

  /** `split_once`. */
  function SplitOnce(s: string, c: char): Option<(string, string)> {
    var k := IndexOf(s, c);
    if k == |s| then None else Some((s[..k], s[k + 1..]))
  }

  /** `split`. */
  function SplitAll(s: string, c: char): seq<string>
    decreases |s|
  {
    var k := IndexOf(s, c);
    if k == |s| then [s] else [s[..k]] + SplitAll(s[k + 1..], c)
  }

  lemma {:induction false} IndexAfter(a: string, c: char, b: string)
    requires c !in a
    ensures IndexOf(a + ([c] + b), c) == |a| && IndexOf(a, c) == |a|
  {
    if a == "" {
      assert a + ([c] + b) == [c] + b;
    } else {
      assert a[0] in a && (a + ([c] + b))[1..] == a[1..] + ([c] + b);
      assert forall x <- a[1..] :: x in a;
      IndexAfter(a[1..], c, b);
    }
  }

  lemma SplitsOnce(a: string, c: char, b: string)
    requires c !in a
    ensures SplitOnce(a + ([c] + b), c) == Some((a, b))
    ensures SplitAll(a + ([c] + b), c) == [a] + SplitAll(b, c)
    ensures SplitAll(a, c) == [a]
  {
    IndexAfter(a, c, b);
    var s := a + ([c] + b);
    assert s[..|a|] == a && s[|a| + 1..] == b;
  }
}
