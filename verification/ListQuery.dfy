/** The query of `GET /v1/cells` (cells.rs): a strict parser, the canonical target
    a router forwards, and the split of a target into route and query. */
module ListQuery {
  import opened Common
  import opened Decimal
  import opened Split

  const KEEP: nat := 500
  const DEFAULT_LIMIT: nat := 100

  datatype Query = Query(all: bool, limit: nat)

  predicate Valid(q: Query) {
    1 <= q.limit <= KEEP
  }

  datatype Refusal = BadAll | BadLimit | BadParameter

  function NotEmpty(parts: seq<string>): seq<string> {
    if parts == [] then [] else (if parts[0] == "" then [] else [parts[0]]) + NotEmpty(parts[1..])
  }

  function Pairs(query: string): seq<string> {
    NotEmpty(SplitAll(query, '&'))
  }

  // --------------------------------------------------------------------- parsing

  /** What has been seen of each parameter. */
  datatype Seen = Seen(all: Option<bool>, limit: Option<nat>)

  const NOTHING := Seen(None, None)

  /** `usize::from_str` within 1 to 500, without a plus sign: digits only, leading
      zeros allowed. */
  function LimitOf(value: string): Option<nat> {
    if value != "" && AllDigits(value) && 1 <= Value(value) <= KEEP then Some(Value(value)) else None
  }

  function Take(seen: Seen, pair: string): Result<Seen, Refusal> {
    match SplitOnce(pair, '=')
    case None => Err(BadParameter)
    case Some((name, value)) =>
      if name == "all" && seen.all.None? then
        if value == "true" then Ok(seen.(all := Some(true)))
        else if value == "false" then Ok(seen.(all := Some(false)))
        else Err(BadAll)
      else if name == "limit" && seen.limit.None? then
        match LimitOf(value)
        case Some(n) => Ok(seen.(limit := Some(n)))
        case None => Err(BadLimit)
      else Err(BadParameter)
  }

  function TakeAll(seen: Seen, pairs: seq<string>): Result<Seen, Refusal>
    decreases |pairs|
  {
    if pairs == [] then Ok(seen)
    else
      match Take(seen, pairs[0])
      case Err(e) => Err(e)
      case Ok(next) => TakeAll(next, pairs[1..])
  }

  function Filled(seen: Seen): Query {
    Query(if seen.all.Some? then seen.all.value else false,
          if seen.limit.Some? then seen.limit.value else DEFAULT_LIMIT)
  }

  function Parsed(query: Option<string>): Result<Query, Refusal> {
    match TakeAll(NOTHING, Pairs(if query.Some? then query.value else ""))
    case Err(e) => Err(e)
    case Ok(seen) => Ok(Filled(seen))
  }

  /** `ListQuery::parse`. */
  method Parse(query: Option<string>) returns (r: Result<Query, Refusal>)
    ensures r == Parsed(query)
  {
    var all: Option<bool>, limit: Option<nat> := None, None;
    var pairs := Pairs(if query.Some? then query.value else "");
    for i := 0 to |pairs|
      invariant TakeAll(NOTHING, pairs) == TakeAll(Seen(all, limit), pairs[i..])
    {
      var pair := pairs[i];
      assert pairs[i..][1..] == pairs[i + 1..];
      var parts := SplitOnce(pair, '=');
      if parts.None? { return Err(BadParameter); }
      var name, value := parts.value.0, parts.value.1;
      if name == "all" && all.None? {
        if value == "true" {
          all := Some(true);
        } else if value == "false" {
          all := Some(false);
        } else {
          return Err(BadAll);
        }
      } else if name == "limit" && limit.None? {
        limit := LimitOf(value);
        if limit.None? { return Err(BadLimit); }
      } else {
        return Err(BadParameter);
      }
    }
    r := Ok(Query(if all.Some? then all.value else false, if limit.Some? then limit.value else DEFAULT_LIMIT));
  }

  // -------------------------------------------------------------------- printing

  function QueryText(q: Query): string {
    "all=" + ((if q.all then "true" else "false") + ("&" + ("limit=" + Digits(q.limit))))
  }

  /** `ListQuery::target`. */
  function Target(q: Query): string {
    "/v1/cells?" + QueryText(q)
  }

  /** `report_query`. */
  function ReportQuery(target: string): Option<Option<string>> {
    match SplitOnce(target, '?')
    case None => if target == "/v1/cells" then Some(None) else None
    case Some((route, query)) => if route == "/v1/cells" then Some(Some(query)) else None
  }

  // ---------------------------------------------------------------------- lemmas

  lemma DigitsAreDigits(n: nat)
    ensures AllDigits(Digits(n)) && Value(Digits(n)) == n && Digits(n) != ""
    ensures '&' !in Digits(n) && '=' !in Digits(n) && '?' !in Digits(n)
  {
    DigitsRight(n);
    NoLeadingZero(n);
    assert forall c <- Digits(n) :: IsDigit(c);
  }

  lemma TakesAll(b: bool)
    ensures Take(NOTHING, "all=" + (if b then "true" else "false")) == Ok(Seen(Some(b), None))
  {
    var word := if b then "true" else "false";
    assert "all=" + word == "all" + (['='] + word);
    SplitsOnce("all", '=', word);
  }

  lemma TakesLimit(n: nat, seen: Seen)
    requires 1 <= n <= KEEP && seen.limit.None?
    ensures Take(seen, "limit=" + Digits(n)) == Ok(seen.(limit := Some(n)))
  {
    DigitsAreDigits(n);
    var digits := Digits(n);
    assert "limit=" + digits == "limit" + (['='] + digits);
    SplitsOnce("limit", '=', digits);
  }

  lemma TextPairs(q: Query)
    ensures Pairs(QueryText(q)) == ["all=" + (if q.all then "true" else "false"), "limit=" + Digits(q.limit)]
  {
    var first, second := "all=" + (if q.all then "true" else "false"), "limit=" + Digits(q.limit);
    assert QueryText(q) == first + (['&'] + second);
    DigitsAreDigits(q.limit);
    assert '&' !in first && '&' !in second;
    SplitsOnce(first, '&', second);
    SplitsOnce(second, '&', "");
    var parts := [first] + [second];
    assert SplitAll(QueryText(q), '&') == parts;
    assert parts[1..] == [second] && [second][1..] == [];
    assert NotEmpty([second]) == [second];
  }

  lemma TextParses(q: Query)
    requires Valid(q)
    ensures Parsed(Some(QueryText(q))) == Ok(q)
  {
    TextPairs(q);
    TakesAll(q.all);
    TakesLimit(q.limit, Seen(Some(q.all), None));
    TwoTakes(NOTHING, Pairs(QueryText(q)));
  }

  lemma TwoTakes(seen: Seen, pairs: seq<string>)
    requires |pairs| == 2
    ensures TakeAll(seen, pairs) ==
              match Take(seen, pairs[0])
              case Err(e) => Err(e)
              case Ok(next) => Take(next, pairs[1])
  {
    var rest := pairs[1..];
    assert rest[0] == pairs[1] && rest[1..] == [];
    if Take(seen, pairs[0]).Ok? {
      var next := Take(seen, pairs[0]).value;
      assert TakeAll(next, rest).Ok? <==> Take(next, pairs[1]).Ok?;
    }
  }

  /** Query round trip: the query part of the canonical target gives back every
      valid query, and the route is recognised. */
  lemma TargetReadsBack(q: Query)
    requires Valid(q)
    ensures ReportQuery(Target(q)) == Some(Some(QueryText(q)))
    ensures Parsed(Some(QueryText(q))) == Ok(q)
  {
    var text := QueryText(q);
    assert "/v1/cells?" + text == "/v1/cells" + (['?'] + text);
    SplitsOnce("/v1/cells", '?', text);
    TextParses(q);
  }

  lemma TargetTexts()
    ensures Target(Query(true, 7)) == "/v1/cells?all=true&limit=7"
    ensures Target(Query(false, 7)) == "/v1/cells?all=false&limit=7"
  {
    assert Digits(7) == "7";
  }

  /** What a pair says, taken alone. */
  datatype Item = AllIs(all: bool) | LimitIs(limit: nat)

  function ItemOf(pair: string): Option<Item> {
    match SplitOnce(pair, '=')
    case None => None
    case Some((name, value)) =>
      if name == "all" then
        if value == "true" then Some(AllIs(true)) else if value == "false" then Some(AllIs(false)) else None
      else if name == "limit" && value != "" && AllDigits(value) && 1 <= Value(value) <= 500
      then Some(LimitIs(Value(value)))
      else None
  }

  /** What the items say together; `all` is off and the limit 100 unless one says so. */
  function Said(items: seq<Item>): Query {
    Query(
      if items != [] && items[0].AllIs? then items[0].all
      else if |items| == 2 && items[1].AllIs? then items[1].all else false,
      if items != [] && items[0].LimitIs? then items[0].limit
      else if |items| == 2 && items[1].LimitIs? then items[1].limit else 100)
  }

  /** The pairs are at most one `all` and at most one `limit`, both well formed. */
  predicate Proper(pairs: seq<string>) {
    && |pairs| <= 2
    && (forall i :: 0 <= i < |pairs| ==> ItemOf(pairs[i]).Some?)
    && (|pairs| == 2 ==> (ItemOf(pairs[0]).value.AllIs? <==> ItemOf(pairs[1]).value.LimitIs?))
  }

  function Items(pairs: seq<string>): seq<Item>
    requires Proper(pairs)
  {
    seq(|pairs|, i requires 0 <= i < |pairs| => ItemOf(pairs[i]).value)
  }

  lemma TakeIff(seen: Seen, pair: string)
    ensures Take(seen, pair).Ok? <==>
              ItemOf(pair).Some? && (if ItemOf(pair).value.AllIs? then seen.all.None? else seen.limit.None?)
    ensures Take(seen, pair).Ok? ==>
              Take(seen, pair).value ==
                match ItemOf(pair).value
                case AllIs(b) => seen.(all := Some(b))
                case LimitIs(n) => seen.(limit := Some(n))
  {
  }

  lemma ShortTakes(pairs: seq<string>)
    requires |pairs| <= 2
    ensures TakeAll(NOTHING, pairs).Ok? <==> Proper(pairs)
    ensures Proper(pairs) ==> Filled(TakeAll(NOTHING, pairs).value) == Said(Items(pairs))
  {
    if |pairs| == 1 {
      TakeIff(NOTHING, pairs[0]);
    } else if |pairs| == 2 {
      TwoTakes(NOTHING, pairs);
      TakeIff(NOTHING, pairs[0]);
      if Take(NOTHING, pairs[0]).Ok? { TakeIff(Take(NOTHING, pairs[0]).value, pairs[1]); }
    }
  }

  /** Two parameters fill everything: a third pair is always refused. */
  lemma LongTakes(pairs: seq<string>)
    requires |pairs| >= 3
    ensures TakeAll(NOTHING, pairs).Err?
  {
    TakeIff(NOTHING, pairs[0]);
    var first := Take(NOTHING, pairs[0]);
    if first.Ok? {
      TakeIff(first.value, pairs[1]);
      assert pairs[1..][0] == pairs[1] && pairs[1..][1..] == pairs[2..];
      var second := Take(first.value, pairs[1]);
      if second.Ok? {
        TakeIff(second.value, pairs[2]);
        assert TakeAll(second.value, pairs[2..]).Err?;
      }
    }
  }

  lemma SaidIsValid(pairs: seq<string>)
    requires Proper(pairs)
    ensures Valid(Said(Items(pairs)))
  {
    forall i | 0 <= i < |pairs| ensures ItemOf(pairs[i]).value.LimitIs? ==> 1 <= ItemOf(pairs[i]).value.limit <= KEEP {
      assert ItemOf(pairs[i]).Some?;
    }
  }

  /** Exactly which queries are accepted, in whatever order and with however many
      empty pairs, and what they mean; no query at all means the same as none said. */
  lemma AcceptedIff(query: string)
    ensures Parsed(Some(query)).Ok? <==> Proper(Pairs(query))
    ensures Proper(Pairs(query)) ==>
              Parsed(Some(query)) == Ok(Said(Items(Pairs(query)))) && Valid(Said(Items(Pairs(query))))
    ensures Parsed(None) == Parsed(Some("")) == Ok(Query(false, 100))
  {
    PairsOfOne("");
    var pairs := Pairs(query);
    if |pairs| <= 2 { ShortTakes(pairs); } else { LongTakes(pairs); }
    if Proper(pairs) { SaidIsValid(pairs); }
  }

  lemma PairsOfOne(s: string)
    requires '&' !in s
    ensures Pairs(s) == if s == "" then [] else [s]
  {
    SplitsOnce(s, '&', "");
    assert SplitAll(s, '&') == [s] && [s][1..] == [];
    assert NotEmpty([s][1..]) == [];
  }

  lemma {:induction false} NotEmptyJoin(a: seq<string>, b: seq<string>)
    ensures NotEmpty(a + b) == NotEmpty(a) + NotEmpty(b)
  {
    if a == [] {
      assert a + b == b;
    } else {
      assert (a + b)[1..] == a[1..] + b;
      NotEmptyJoin(a[1..], b);
    }
  }

  lemma Regrouped(first: string, rest: string, more: string)
    ensures (first + (['&'] + rest)) + more == first + (['&'] + (rest + more))
  {
  }

  lemma SplitBehind(a: string, first: string, rest: string, b: string)
    requires '&' !in first && a == first + (['&'] + rest)
    ensures SplitAll(a, '&') == [first] + SplitAll(rest, '&')
    ensures SplitAll(a + ("&" + b), '&') == [first] + SplitAll(rest + ("&" + b), '&')
  {
    SplitsOnce(first, '&', rest);
    SplitsOnce(first, '&', rest + ("&" + b));
    Regrouped(first, rest, "&" + b);
  }

  lemma PartsRegrouped(first: string, parts: seq<string>, more: seq<string>)
    ensures [first] + (parts + more) == ([first] + parts) + more
  {
  }

  lemma {:induction false} SplitJoin(a: string, b: string)
    ensures SplitAll(a + ("&" + b), '&') == SplitAll(a, '&') + SplitAll(b, '&')
    decreases |a|
  {
    var k := IndexOf(a, '&');
    if k == |a| {
      SplitsOnce(a, '&', b);
    } else {
      var first, rest := a[..k], a[k + 1..];
      SplitJoin(rest, b);
      SplitBehind(a, first, rest, b);
      PartsRegrouped(first, SplitAll(rest, '&'), SplitAll(b, '&'));
    }
  }

  /** What the pairs of a query are: a text without an ampersand is one pair, or none
      if it is empty, and an ampersand joins the pairs of its two sides. So spare
      ampersands do not matter. */
  lemma PairsAreJoined(a: string, b: string)
    ensures '&' !in a ==> Pairs(a) == if a == "" then [] else [a]
    ensures Pairs(a + ("&" + b)) == Pairs(a) + Pairs(b)
  {
    if '&' !in a { PairsOfOne(a); }
    SplitJoin(a, b);
    NotEmptyJoin(SplitAll(a, '&'), SplitAll(b, '&'));
  }

  lemma OtherRoute(target: string)
    requires !("/v1/cells?" <= target)
    ensures ReportQuery(target) == if target == "/v1/cells" then Some(None) else None
  {
    var k := IndexOf(target, '?');
    if k == 9 && k < |target| { assert target[..10] == target[..9] + ['?']; }
    if target == "/v1/cells" { SplitsOnce("/v1/cells", '?', ""); }
  }

  /** The target of the listing, with or without a query, and no other. */
  lemma RouteIff(target: string)
    ensures ReportQuery(target).Some? <==> target == "/v1/cells" || "/v1/cells?" <= target
    ensures target == "/v1/cells" ==> ReportQuery(target) == Some(None)
    ensures "/v1/cells?" <= target ==> ReportQuery(target) == Some(Some(target[10..]))
  {
    if "/v1/cells?" <= target {
      var query := target[10..];
      assert target == "/v1/cells" + (['?'] + query);
      SplitsOnce("/v1/cells", '?', query);
    } else {
      OtherRoute(target);
    }
  }

  /** Why a pair is refused behind the pairs accepted so far. */
  function Why(before: seq<string>, pair: string): Refusal
    requires Proper(before)
  {
    match SplitOnce(pair, '=')
    case None => BadParameter
    case Some((name, value)) =>
      if name == "all" && forall item <- Items(before) :: item.LimitIs? then BadAll
      else if name == "limit" && forall item <- Items(before) :: item.AllIs? then BadLimit
      else BadParameter
  }

  lemma {:induction false} FirstRefused(seen: Seen, pairs: seq<string>) returns (k: nat)
    requires TakeAll(seen, pairs).Err?
    ensures k < |pairs| && TakeAll(seen, pairs[..k]).Ok?
    ensures Take(TakeAll(seen, pairs[..k]).value, pairs[k]) == Err(TakeAll(seen, pairs).refusal)
    decreases |pairs|
  {
    if Take(seen, pairs[0]).Err? {
      k := 0;
    } else {
      var next := Take(seen, pairs[0]).value;
      k := FirstRefused(next, pairs[1..]);
      assert pairs[..k + 1][1..] == pairs[1..][..k];
      k := k + 1;
    }
  }

  /** After a proper list the parser has seen exactly what its items say. */
  lemma SeenIsSaid(pairs: seq<string>)
    requires Proper(pairs) && TakeAll(NOTHING, pairs).Ok?
    ensures var seen := TakeAll(NOTHING, pairs).value;
            && (seen.all.Some? <==> exists item <- Items(pairs) :: item.AllIs?)
            && (seen.limit.Some? <==> exists item <- Items(pairs) :: item.LimitIs?)
  {
    if |pairs| == 1 {
      TakeIff(NOTHING, pairs[0]);
      assert Items(pairs)[0] in Items(pairs);
    } else if |pairs| == 2 {
      TwoTakes(NOTHING, pairs);
      TakeIff(NOTHING, pairs[0]);
      TakeIff(Take(NOTHING, pairs[0]).value, pairs[1]);
      assert Items(pairs)[0] in Items(pairs) && Items(pairs)[1] in Items(pairs);
    }
  }

  lemma ProperOneMore(before: seq<string>, pair: string)
    requires Proper(before)
    ensures Proper(before + [pair]) ==>
              && ItemOf(pair).Some?
              && forall item <- Items(before) :: item.AllIs? <==> ItemOf(pair).value.LimitIs?
  {
    var all := before + [pair];
    assert all[|before|] == pair && forall i :: 0 <= i < |before| ==> all[i] == before[i];
  }

  lemma WhyRefused(before: seq<string>, pair: string)
    requires Proper(before) && TakeAll(NOTHING, before).Ok? && Take(TakeAll(NOTHING, before).value, pair).Err?
    ensures Take(TakeAll(NOTHING, before).value, pair) == Err(Why(before, pair))
    ensures !Proper(before + [pair])
  {
    var seen := TakeAll(NOTHING, before).value;
    SeenIsSaid(before);
    TakeIff(seen, pair);
    if |before| == 1 { assert Items(before) == [Items(before)[0]]; }
    if |before| == 2 { assert Items(before) == [Items(before)[0], Items(before)[1]]; }
    ProperOneMore(before, pair);
  }

  /** Which refusal a query gets: that of its first pair that cannot stand behind the
      pairs before it. */
  lemma RefusedFor(query: string) returns (k: nat)
    requires Parsed(Some(query)).Err?
    ensures var pairs := Pairs(query);
            && k < |pairs| && Proper(pairs[..k]) && !Proper(pairs[..k + 1])
            && Parsed(Some(query)) == Err(Why(pairs[..k], pairs[k]))
  {
    var pairs := Pairs(query);
    k := FirstRefused(NOTHING, pairs);
    if k <= 2 { ShortTakes(pairs[..k]); } else { LongTakes(pairs[..k]); }
    WhyRefused(pairs[..k], pairs[k]);
    assert pairs[..k + 1] == pairs[..k] + [pairs[k]];
  }

  lemma ShortPermutations(p: seq<string>, q: seq<string>)
    requires |p| <= 2 && multiset(p) == multiset(q)
    ensures q == p || (|p| == 2 && q == [p[1], p[0]])
  {
    assert |p| == |multiset(p)| == |multiset(q)| == |q|;
    if |p| == 1 {
      assert p[0] in multiset(q);
    } else if |p| == 2 {
      PairPermutation(p[0], p[1], q[0], q[1]) by {
        assert p == [p[0], p[1]] && q == [q[0], q[1]];
      }
    }
  }

  lemma PairPermutation(a: string, b: string, c: string, d: string)
    requires multiset([a, b]) == multiset([c, d])
    ensures (c == a && d == b) || (c == b && d == a)
  {
    var m := multiset{c, d};
    assert multiset([a, b]) == multiset{a, b} && multiset([c, d]) == m;
    assert a in m && b in m && c in multiset{a, b} && d in multiset{a, b};
  }

  /** So the order of the parameters does not matter. */
  lemma OrderDoesNotMatter(a: string, b: string)
    requires multiset(Pairs(a)) == multiset(Pairs(b)) && Parsed(Some(a)).Ok?
    ensures Parsed(Some(b)) == Parsed(Some(a))
  {
    AcceptedIff(a);
    AcceptedIff(b);
    ShortPermutations(Pairs(a), Pairs(b));
    Swapped(Pairs(a), Pairs(b));
  }

  lemma Swapped(p: seq<string>, q: seq<string>)
    requires Proper(p) && (q == p || (|p| == 2 && q == [p[1], p[0]]))
    ensures Proper(q) && Said(Items(q)) == Said(Items(p))
  {
  }

  /** Forwarding the canonical target keeps the meaning of every accepted query,
      leading zeros and spare ampersands included, and is stable. */
  lemma CanonicalFormKeepsMeaning(query: Option<string>)
    requires Parsed(query).Ok?
    ensures var q := Parsed(query).value;
            && Valid(q)
            && ReportQuery(Target(q)).Some?
            && Parsed(ReportQuery(Target(q)).value) == Ok(q)
  {
    AcceptedIff(if query.Some? then query.value else "");
    TargetReadsBack(Parsed(query).value);
  }
}
