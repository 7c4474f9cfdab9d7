/**
 Unique-coin aggregation: qualifying markets are grouped by base coin, each group is ranked, and its best
 market represents the coin.
 */
module Aggregation {
  import opened Wrappers
  import opened Ordering

  datatype MomentumValue = MomentumValue(
    category: string,
    symbol: string,
    baseCoin: string,
    change: Option<real>,
    settleCoin: Option<string>,
    quoteCoin: Option<string>)

  datatype RepresentativeMarket = RepresentativeMarket(
    baseCoin: string,
    representative: MomentumValue,
    others: seq<MomentumValue>)

  const StablecoinQuotes := {"USDT", "USDC", "DAI", "FDUSD", "TUSD", "BUSD", "PYUSD", "EUR", "USD"}

  function UpperChar(c: char): char {
    if 'a' <= c <= 'z' then (c as int - 32) as char else c
  }

  function Upper(s: string): string {
    seq(|s|, i requires 0 <= i < |s| => UpperChar(s[i]))
  }

  /** Lower ranks win between markets with the same increase. */
  function TieBreakRank(v: MomentumValue): nat {
    if v.category == "linear" then
      if v.settleCoin == Some("USDT") then 0 else if v.settleCoin == Some("USDC") then 1 else 2
    else if v.category == "spot" then
      if v.quoteCoin.Some? && Upper(v.quoteCoin.value) in StablecoinQuotes then 3 else 4
    else 5
  }

  predicate Qualifies(v: MomentumValue, threshold: real) {
    v.change.Some? && v.change.value > threshold
  }

  function ChangeOf(v: MomentumValue): real {
    if v.change.Some? then v.change.value else 0.0
  }

  /** `a` comes strictly before `b` under (−change, rank, symbol). */
  predicate Before(a: MomentumValue, b: MomentumValue) {
    || ChangeOf(a) > ChangeOf(b)
    || (ChangeOf(a) == ChangeOf(b) && TieBreakRank(a) < TieBreakRank(b))
    || (ChangeOf(a) == ChangeOf(b) && TieBreakRank(a) == TieBreakRank(b) && Below(a.symbol, b.symbol))
  }

  lemma BeforeTransitive(a: MomentumValue, b: MomentumValue, c: MomentumValue)
    requires !Before(b, a) && !Before(c, b)
    ensures !Before(c, a)
  {
    if Before(c, a) {
      BelowTotal(a.symbol, b.symbol);
      BelowTotal(b.symbol, c.symbol);
      BelowIrreflexive(a.symbol);
      if Below(a.symbol, b.symbol) && Below(b.symbol, c.symbol) { BelowTransitive(a.symbol, b.symbol, c.symbol); }
      if Below(a.symbol, c.symbol) && Below(c.symbol, a.symbol) { BelowTransitive(a.symbol, c.symbol, a.symbol); }
    }
  }

  /** A stable sort, one insertion at a time. */
  function Inserted(s: seq<MomentumValue>, x: MomentumValue): seq<MomentumValue> {
    if s == [] then [x]
    else if Before(x, s[0]) then [x] + s
    else [s[0]] + Inserted(s[1..], x)
  }

  function Sorted(s: seq<MomentumValue>): seq<MomentumValue>
    decreases |s|
  {
    if s == [] then [] else Inserted(Sorted(s[..|s| - 1]), s[|s| - 1])
  }

  predicate InOrder(s: seq<MomentumValue>) {
    forall i, j | 0 <= i < j < |s| :: !Before(s[j], s[i])
  }

  lemma {:induction false} InsertedInOrder(s: seq<MomentumValue>, x: MomentumValue)
    requires InOrder(s)
    ensures InOrder(Inserted(s, x)) && multiset(Inserted(s, x)) == multiset(s) + multiset{x}
    decreases |s|
  {
    if s == [] {
    } else if Before(x, s[0]) {
      forall j | 0 <= j < |s| ensures !Before(s[j], x) {
        BeforeAsymmetric(x, s[0]);
        if j > 0 { BeforeTransitive(x, s[0], s[j]); }
      }
    } else {
      InsertedInOrder(s[1..], x);
      var r := Inserted(s[1..], x);
      assert s == [s[0]] + s[1..];
      forall j | 0 <= j < |r| ensures !Before(r[j], s[0]) {
        assert r[j] in multiset(r);
        assert r[j] == x || r[j] in s[1..];
      }
    }
  }

  lemma BeforeAsymmetric(a: MomentumValue, b: MomentumValue)
    requires Before(a, b)
    ensures !Before(b, a)
  {
    if Below(a.symbol, b.symbol) && Below(b.symbol, a.symbol) {
      BelowTransitive(a.symbol, b.symbol, a.symbol);
    }
    BelowIrreflexive(a.symbol);
  }

  lemma LastMultiset(s: seq<MomentumValue>)
    requires s != []
    ensures multiset(s) == multiset(s[..|s| - 1]) + multiset{s[|s| - 1]}
  {
    assert s == s[..|s| - 1] + [s[|s| - 1]];
  }

  lemma {:induction false} SortedSorts(s: seq<MomentumValue>)
    ensures InOrder(Sorted(s)) && multiset(Sorted(s)) == multiset(s)
    decreases |s|
  {
    if s == [] {
    } else {
      var n := |s| - 1;
      SortedSorts(s[..n]);
      InsertedInOrder(Sorted(s[..n]), s[n]);
      LastMultiset(s);
    }
  }

  /** The order decides between any two different values of the sequence. */
  ghost predicate Decided(s: seq<MomentumValue>) {
    forall a, b | a in s && b in s && a != b :: Before(a, b) || Before(b, a)
  }

  lemma SameFirst(a: seq<MomentumValue>, b: seq<MomentumValue>)
    requires InOrder(a) && InOrder(b) && multiset(a) == multiset(b) && Decided(a) && a != []
    ensures b != [] && a[0] == b[0]
  {
    assert a[0] in multiset(b);
    assert b[0] in multiset(a);
    var j :| 0 <= j < |b| && b[j] == a[0];
    var i :| 0 <= i < |a| && a[i] == b[0];
  }

  lemma RestMultiset(a: seq<MomentumValue>)
    requires a != []
    ensures multiset(a[1..]) == multiset(a) - multiset{a[0]}
  {
    assert a == [a[0]] + a[1..];
  }

  /** Where the order decides, the sorted sequence is determined by the values alone. */
  lemma {:induction false} InOrderUnique(a: seq<MomentumValue>, b: seq<MomentumValue>)
    requires InOrder(a) && InOrder(b) && multiset(a) == multiset(b) && Decided(a)
    ensures a == b
    decreases |a|
  {
    assert |multiset(a)| == |a| && |multiset(b)| == |b|;
    if a == [] {
    } else {
      SameFirst(a, b);
      RestMultiset(a);
      RestMultiset(b);
      forall x | x in a[1..] ensures x in a {}
      InOrderUnique(a[1..], b[1..]);
      assert a == [a[0]] + a[1..] && b == [b[0]] + b[1..];
    }
  }

  // ---------------------------------------------------------------------------------------------
  // Grouping
  // ---------------------------------------------------------------------------------------------

  predicate Member(v: MomentumValue, coin: string, threshold: real) {
    Qualifies(v, threshold) && v.baseCoin == coin
  }

  /** The qualifying markets of a coin, in the order they came. */
  function Group(values: seq<MomentumValue>, coin: string, threshold: real): seq<MomentumValue>
    decreases |values|
  {
    if values == [] then [] else
      var n := |values| - 1;
      Group(values[..n], coin, threshold) + if Member(values[n], coin, threshold) then [values[n]] else []
  }

  function Coins(values: seq<MomentumValue>, threshold: real): set<string> {
    set i | 0 <= i < |values| && Qualifies(values[i], threshold) :: values[i].baseCoin
  }

  lemma {:induction false} GroupCounts(values: seq<MomentumValue>, coin: string, threshold: real, v: MomentumValue)
    ensures multiset(Group(values, coin, threshold))[v] == if Member(v, coin, threshold) then multiset(values)[v] else 0
    decreases |values|
  {
    if values == [] {
    } else {
      var n := |values| - 1;
      GroupCounts(values[..n], coin, threshold, v);
      assert values == values[..n] + [values[n]];
    }
  }

  /** A coin has a group exactly when it has a qualifying market. */
  lemma {:induction false} GroupNonEmpty(values: seq<MomentumValue>, coin: string, threshold: real)
    ensures Group(values, coin, threshold) != [] <==> coin in Coins(values, threshold)
    decreases |values|
  {
    if values == [] {
    } else {
      var n := |values| - 1;
      GroupNonEmpty(values[..n], coin, threshold);
      assert Coins(values, threshold) ==
             Coins(values[..n], threshold) + if Qualifies(values[n], threshold) then {values[n].baseCoin} else {};
    }
  }

  function RepresentativeOf(values: seq<MomentumValue>, coin: string, threshold: real): RepresentativeMarket
    requires coin in Coins(values, threshold)
  {
    SortedGroupNonEmpty(values, coin, threshold);
    var ordered := Sorted(Group(values, coin, threshold));
    RepresentativeMarket(coin, ordered[0], ordered[1..])
  }

  lemma SortedGroupNonEmpty(values: seq<MomentumValue>, coin: string, threshold: real)
    requires coin in Coins(values, threshold)
    ensures Sorted(Group(values, coin, threshold)) != []
  {
    GroupNonEmpty(values, coin, threshold);
    SortedSorts(Group(values, coin, threshold));
    var g := Group(values, coin, threshold);
    assert |Sorted(g)| == |multiset(Sorted(g))| == |multiset(g)| == |g|;
  }

  /** `r` is the representative of the coin, with the other markets behind it. */
  ghost predicate Stands(values: seq<MomentumValue>, threshold: real, coin: string, r: RepresentativeMarket) {
    coin in Coins(values, threshold) && r == RepresentativeOf(values, coin, threshold)
  }

  /** The whole result: one representative a coin, in ascending order of the coins. */
  function Aggregated(values: seq<MomentumValue>, threshold: real): seq<RepresentativeMarket> {
    var coins := SortedSet(Coins(values, threshold));
    seq(|coins|, i requires 0 <= i < |coins| =>
      assert coins[i] in Elements(coins); RepresentativeOf(values, coins[i], threshold))
  }

  /** The sorted coins of a result. */
  function Fingerprint(reps: seq<RepresentativeMarket>): seq<string> {
    SortedSet(set i | 0 <= i < |reps| :: reps[i].baseCoin)
  }

  /** Fills the groups in one pass over the values. */
  method GroupByCoin(values: seq<MomentumValue>, threshold: real) returns (byCoin: map<string, seq<MomentumValue>>)
    ensures byCoin.Keys == Coins(values, threshold)
    ensures forall coin | coin in byCoin :: byCoin[coin] == Group(values, coin, threshold)
  {
    byCoin := map[];
    for i := 0 to |values|
      invariant byCoin.Keys == Coins(values[..i], threshold)
      invariant forall coin | coin in byCoin :: byCoin[coin] == Group(values[..i], coin, threshold)
    {
      var v := values[i];
      CoinsAppend(values[..i], v, threshold);
      assert values[..i + 1] == values[..i] + [v];
      assert values[..i + 1][..i] == values[..i];
      if Qualifies(v, threshold) {
        GroupNonEmpty(values[..i], v.baseCoin, threshold);
        var group := if v.baseCoin in byCoin then byCoin[v.baseCoin] else [];
        byCoin := byCoin[v.baseCoin := group + [v]];
      }
    }
    assert values[..|values|] == values;
  }

  /** Ranks the markets of one coin and splits off the best. */
  method Represent(values: seq<MomentumValue>, coin: string, threshold: real, markets: seq<MomentumValue>)
    returns (r: RepresentativeMarket)
    requires coin in Coins(values, threshold) && markets == Group(values, coin, threshold)
    ensures Stands(values, threshold, coin, r)
  {
    SortedGroupNonEmpty(values, coin, threshold);
    var ordered := Sorted(markets);
    r := RepresentativeMarket(coin, ordered[0], ordered[1..]);
  }

  /** Groups the values, ranks each group and lists the representatives by coin. */
  method AggregateQualifying(values: seq<MomentumValue>, threshold: real) returns (reps: seq<RepresentativeMarket>)
    ensures reps == Aggregated(values, threshold)
  {
    var byCoin := GroupByCoin(values, threshold);
    AggregatedShape(values, threshold);
    reps := RankGroups(values, threshold, byCoin, SortedSet(byCoin.Keys));
    assert |reps| == |Aggregated(values, threshold)|;
    assert forall k | 0 <= k < |reps| :: reps[k] == Aggregated(values, threshold)[k];
  }

  /** One representative for each listed coin, in the order of the list. */
  method RankGroups(values: seq<MomentumValue>, threshold: real, byCoin: map<string, seq<MomentumValue>>,
                    coins: seq<string>)
    returns (reps: seq<RepresentativeMarket>)
    requires forall coin | coin in byCoin ::
               coin in Coins(values, threshold) && byCoin[coin] == Group(values, coin, threshold)
    requires forall k | 0 <= k < |coins| :: coins[k] in byCoin
    ensures |reps| == |coins|
    ensures forall k | 0 <= k < |coins| :: Stands(values, threshold, coins[k], reps[k])
  {
    reps := [];
    for i := 0 to |coins|
      invariant |reps| == i
      invariant forall k | 0 <= k < i :: Stands(values, threshold, coins[k], reps[k])
    {
      var r := Represent(values, coins[i], threshold, byCoin[coins[i]]);
      reps := reps + [r];
    }
  }

  lemma AggregatedShape(values: seq<MomentumValue>, threshold: real)
    ensures var coins := SortedSet(Coins(values, threshold));
            && |Aggregated(values, threshold)| == |coins|
            && forall k | 0 <= k < |coins| ::
                 coins[k] in Coins(values, threshold)
                   && Aggregated(values, threshold)[k] == RepresentativeOf(values, coins[k], threshold)
  {
    var coins := SortedSet(Coins(values, threshold));
    assert forall k | 0 <= k < |coins| :: coins[k] in Elements(coins);
  }

  lemma CoinsAppend(values: seq<MomentumValue>, v: MomentumValue, threshold: real)
    ensures Coins(values + [v], threshold) ==
            Coins(values, threshold) + if Qualifies(v, threshold) then {v.baseCoin} else {}
  {
    var all := values + [v];
    forall coin ensures coin in Coins(all, threshold)
                   <==> coin in Coins(values, threshold) + if Qualifies(v, threshold) then {v.baseCoin} else {}
    {
      if coin in Coins(values, threshold) {
        var i :| 0 <= i < |values| && Qualifies(values[i], threshold) && values[i].baseCoin == coin;
        assert all[i] == values[i];
      }
      assert all[|values|] == v;
    }
  }

  // ---------------------------------------------------------------------------------------------
  // What the result means
  // ---------------------------------------------------------------------------------------------

  predicate SpotOrLinear(v: MomentumValue) {
    v.category == "spot" || v.category == "linear"
  }

  /** Spot and linear markets, each at most once. */
  ghost predicate UniqueMarkets(values: seq<MomentumValue>) {
    && (forall i | 0 <= i < |values| :: SpotOrLinear(values[i]))
    && (forall i, j | 0 <= i < j < |values| ::
       (values[i].category, values[i].symbol) != (values[j].category, values[j].symbol))
  }

  lemma {:induction false} GroupMembers(values: seq<MomentumValue>, coin: string, threshold: real, v: MomentumValue)
    ensures v in Group(values, coin, threshold) <==> v in values && Member(v, coin, threshold)
    decreases |values|
  {
    if values == [] {
    } else {
      var n := |values| - 1;
      GroupMembers(values[..n], coin, threshold, v);
      assert values == values[..n] + [values[n]];
    }
  }

  lemma UniqueMarketsDecided(values: seq<MomentumValue>, coin: string, threshold: real)
    requires UniqueMarkets(values)
    ensures Decided(Group(values, coin, threshold))
  {
    var g := Group(values, coin, threshold);
    forall a, b | a in g && b in g && a != b ensures Before(a, b) || Before(b, a) {
      GroupMembers(values, coin, threshold, a);
      GroupMembers(values, coin, threshold, b);
      MarketsDiffer(values, a, b);
      MarketsDecide(a, b);
    }
  }

  lemma MarketsDiffer(values: seq<MomentumValue>, a: MomentumValue, b: MomentumValue)
    requires UniqueMarkets(values) && a in values && b in values && a != b
    ensures (a.category, a.symbol) != (b.category, b.symbol)
    ensures SpotOrLinear(a) && SpotOrLinear(b)
  {
    var i :| 0 <= i < |values| && values[i] == a;
    var j :| 0 <= j < |values| && values[j] == b;
    assert i != j;
  }

  /** Two different markets are never level: their ranks tell the categories apart, their symbols the rest. */
  lemma MarketsDecide(a: MomentumValue, b: MomentumValue)
    requires SpotOrLinear(a) && SpotOrLinear(b) && (a.category, a.symbol) != (b.category, b.symbol)
    ensures Before(a, b) || Before(b, a)
  {
    BelowTotal(a.symbol, b.symbol);
  }

  lemma SameCoins(values: seq<MomentumValue>, values': seq<MomentumValue>, threshold: real)
    requires multiset(values) == multiset(values')
    ensures Coins(values, threshold) == Coins(values', threshold)
  {
    forall coin ensures coin in Coins(values, threshold) <==> coin in Coins(values', threshold) {
      if coin in Coins(values, threshold) {
        var i :| 0 <= i < |values| && Qualifies(values[i], threshold) && values[i].baseCoin == coin;
        assert values[i] in multiset(values');
      }
      if coin in Coins(values', threshold) {
        var i :| 0 <= i < |values'| && Qualifies(values'[i], threshold) && values'[i].baseCoin == coin;
        assert values'[i] in multiset(values);
      }
    }
  }

  lemma SameSortedGroup(values: seq<MomentumValue>, values': seq<MomentumValue>, coin: string, threshold: real)
    requires multiset(values) == multiset(values') && UniqueMarkets(values)
    ensures Sorted(Group(values, coin, threshold)) == Sorted(Group(values', coin, threshold))
  {
    var g, g' := Group(values, coin, threshold), Group(values', coin, threshold);
    forall v ensures multiset(g)[v] == multiset(g')[v] {
      GroupCounts(values, coin, threshold, v);
      GroupCounts(values', coin, threshold, v);
    }
    assert multiset(g) == multiset(g');
    SortedSorts(g);
    SortedSorts(g');
    UniqueMarketsDecided(values, coin, threshold);
    forall a | a in Sorted(g) ensures a in g { assert a in multiset(Sorted(g)); }
    InOrderUnique(Sorted(g), Sorted(g'));
  }

  /** The result does not depend on the order in which the markets are listed. */
  lemma OrderIndependent(values: seq<MomentumValue>, values': seq<MomentumValue>, threshold: real)
    requires multiset(values) == multiset(values') && UniqueMarkets(values)
    ensures Aggregated(values, threshold) == Aggregated(values', threshold)
  {
    SameCoins(values, values', threshold);
    var coins := SortedSet(Coins(values, threshold));
    forall i | 0 <= i < |coins| ensures Aggregated(values, threshold)[i] == Aggregated(values', threshold)[i] {
      SameSortedGroup(values, values', coins[i], threshold);
    }
  }

  // ---------------------------------------------------------------------------------------------
  // The ranking as it is documented
  // ---------------------------------------------------------------------------------------------

  predicate UsdtLinear(v: MomentumValue) { v.category == "linear" && v.settleCoin == Some("USDT") }

  predicate UsdcLinear(v: MomentumValue) { v.category == "linear" && v.settleCoin == Some("USDC") }

  /** The same letters, in upper or in lower case where `name` has capital ones. */
  predicate Spells(text: string, name: string) {
    && |text| == |name|
    && forall i | 0 <= i < |name| ::
         text[i] == name[i] || ('A' <= name[i] <= 'Z' && text[i] as int == name[i] as int + 32)
  }

  ghost predicate StableSpot(v: MomentumValue) {
    && v.category == "spot" && v.quoteCoin.Some?
    && exists name ::
         && name in ["USDT", "USDC", "DAI", "FDUSD", "TUSD", "BUSD", "PYUSD", "EUR", "USD"]
         && Spells(v.quoteCoin.value, name)
  }

  /** Two markets between which only the symbol decides. */
  ghost predicate SameClass(v: MomentumValue, w: MomentumValue) {
    && (v.category == "linear" <==> w.category == "linear") && (v.category == "spot" <==> w.category == "spot")
    && (UsdtLinear(v) <==> UsdtLinear(w)) && (UsdcLinear(v) <==> UsdcLinear(w)) && (StableSpot(v) <==> StableSpot(w))
  }

  /**
   `v` may stand before `w`: it has risen more; or as much, and no rule puts `w` first: USDT linear before USDC linear,
   before other linear, before spot quoted in a stablecoin, before other spot, and then the smaller symbol.
   */
  ghost predicate MayPrecede(v: MomentumValue, w: MomentumValue)
    requires v.change.Some? && w.change.Some?
  {
    && v.change.value >= w.change.value
    && (v.change.value == w.change.value ==>
          && (UsdtLinear(w) ==> UsdtLinear(v))
          && (UsdcLinear(w) ==> UsdtLinear(v) || UsdcLinear(v))
          && (w.category == "linear" ==> v.category == "linear")
          && (StableSpot(w) ==> v.category == "linear" || StableSpot(v))
          && (w.category == "spot" ==> v.category == "linear" || v.category == "spot")
          && (SameClass(v, w) ==> !Below(w.symbol, v.symbol)))
  }

  lemma UpperSpells(text: string, name: string)
    requires forall i | 0 <= i < |name| :: 'A' <= name[i] <= 'Z'
    ensures Upper(text) == name <==> Spells(text, name)
  {
  }

  lemma StableExactly(v: MomentumValue)
    requires v.category == "spot"
    ensures StableSpot(v) <==> v.quoteCoin.Some? && Upper(v.quoteCoin.value) in StablecoinQuotes
  {
    if v.quoteCoin.Some? {
      var names := ["USDT", "USDC", "DAI", "FDUSD", "TUSD", "BUSD", "PYUSD", "EUR", "USD"];
      forall name | name in names ensures Upper(v.quoteCoin.value) == name <==> Spells(v.quoteCoin.value, name) {
        UpperSpells(v.quoteCoin.value, name);
      }
      assert forall name :: name in StablecoinQuotes <==> name in names;
    }
  }

  lemma NotBeforeMayPrecede(v: MomentumValue, w: MomentumValue)
    requires v.change.Some? && w.change.Some? && !Before(w, v)
    ensures MayPrecede(v, w)
  {
    if v.category == "spot" { StableExactly(v); }
    if w.category == "spot" { StableExactly(w); }
  }

  /**
   Whatever markets are listed, repetitions included, the markets of a result stand in the documented order: the
   representative first, and the others behind it.
   */
  lemma RankedAsDocumented(values: seq<MomentumValue>, threshold: real, i: nat, j: nat, k: nat)
    requires i < |Aggregated(values, threshold)| && j < k <= |Aggregated(values, threshold)[i].others|
    ensures var r := Aggregated(values, threshold)[i];
            var markets := [r.representative] + r.others;
            && markets[j].change.Some? && markets[k].change.Some?
            && MayPrecede(markets[j], markets[k])
  {
    var coin := SortedSet(Coins(values, threshold))[i];
    assert coin in Elements(SortedSet(Coins(values, threshold)));
    var g := Group(values, coin, threshold);
    SortedGroupNonEmpty(values, coin, threshold);
    SortedSorts(g);
    var markets := Sorted(g);
    assert markets == [markets[0]] + markets[1..];
    assert markets[j] in multiset(g) && markets[k] in multiset(g);
    GroupMembers(values, coin, threshold, markets[j]);
    GroupMembers(values, coin, threshold, markets[k]);
    NotBeforeMayPrecede(markets[j], markets[k]);
  }

  /**
   So the representative is a market of its coin that has risen beyond the threshold, and no such market of the coin
   has risen more, or as much and comes first by the documented rules.
   */
  lemma RepresentativeWins(values: seq<MomentumValue>, threshold: real, i: nat, v: MomentumValue)
    requires i < |Aggregated(values, threshold)|
    ensures var r := Aggregated(values, threshold)[i];
            && r.representative in values && r.representative.baseCoin == r.baseCoin
            && r.representative.change.Some? && r.representative.change.value > threshold
            && (v in values && v.baseCoin == r.baseCoin && v.change.Some? && v.change.value > threshold ==>
                  v == r.representative || MayPrecede(r.representative, v))
  {
    var coin := SortedSet(Coins(values, threshold))[i];
    assert coin in Elements(SortedSet(Coins(values, threshold)));
    var g := Group(values, coin, threshold);
    SortedGroupNonEmpty(values, coin, threshold);
    SortedSorts(g);
    var markets := Sorted(g);
    assert markets[0] in multiset(g);
    GroupMembers(values, coin, threshold, markets[0]);
    GroupMembers(values, coin, threshold, v);
    if v in g && v != markets[0] {
      assert v in multiset(markets);
      var k :| 0 <= k < |markets| && markets[k] == v;
      NotBeforeMayPrecede(markets[0], markets[k]);
    }
  }

  lemma BeforeMayNotFollow(v: MomentumValue, w: MomentumValue)
    requires v.change.Some? && w.change.Some? && Before(v, w)
    ensures !MayPrecede(w, v)
  {
    if v.category == "spot" { StableExactly(v); }
    if w.category == "spot" { StableExactly(w); }
  }

  /** Where no market is listed twice, the representative comes first of its coin, and no other market could. */
  lemma RepresentativeIsBest(values: seq<MomentumValue>, threshold: real, i: nat, v: MomentumValue)
    requires UniqueMarkets(values) && i < |Aggregated(values, threshold)|
    ensures var r := Aggregated(values, threshold)[i];
            && r.representative in values && Member(r.representative, r.baseCoin, threshold)
            && (v in values && Member(v, r.baseCoin, threshold) && v != r.representative ==>
               && Before(r.representative, v)
               && MayPrecede(r.representative, v) && !MayPrecede(v, r.representative))
  {
    var coin := SortedSet(Coins(values, threshold))[i];
    var g := Group(values, coin, threshold);
    var ordered := Sorted(g);
    SortedSorts(g);
    SortedGroupNonEmpty(values, coin, threshold) by { assert coin in Elements(SortedSet(Coins(values, threshold))); }
    assert ordered[0] in multiset(g);
    GroupMembers(values, coin, threshold, ordered[0]);
    GroupMembers(values, coin, threshold, v);
    UniqueMarketsDecided(values, coin, threshold);
    if v in g && v != ordered[0] {
      assert v in multiset(ordered);
      var k :| 0 <= k < |ordered| && ordered[k] == v;
      assert !Before(ordered[k], ordered[0]);
      NotBeforeMayPrecede(ordered[0], v);
      BeforeMayNotFollow(ordered[0], v);
    }
  }

  function MarketsOf(r: RepresentativeMarket): seq<MomentumValue> {
    [r.representative] + r.others
  }

  function AllMarkets(reps: seq<RepresentativeMarket>): seq<MomentumValue>
    decreases |reps|
  {
    if reps == [] then [] else AllMarkets(reps[..|reps| - 1]) + MarketsOf(reps[|reps| - 1])
  }

  /** How often a market occurs in one group of the result. */
  lemma GroupMarketCounts(values: seq<MomentumValue>, threshold: real, k: nat, v: MomentumValue)
    requires k < |Aggregated(values, threshold)|
    ensures multiset(MarketsOf(Aggregated(values, threshold)[k]))[v] ==
            if Member(v, SortedSet(Coins(values, threshold))[k], threshold) then multiset(values)[v] else 0
  {
    var coins := SortedSet(Coins(values, threshold));
    var g := Group(values, coins[k], threshold);
    assert coins[k] in Elements(coins);
    SortedGroupNonEmpty(values, coins[k], threshold);
    assert MarketsOf(Aggregated(values, threshold)[k]) == Sorted(g);
    SortedSorts(g);
    GroupCounts(values, coins[k], threshold, v);
  }

  function Total(counts: seq<nat>): nat
    decreases |counts|
  {
    if counts == [] then 0 else Total(counts[..|counts| - 1]) + counts[|counts| - 1]
  }

  lemma CountsJoin(a: seq<MomentumValue>, b: seq<MomentumValue>, v: MomentumValue)
    ensures multiset(a + b)[v] == multiset(a)[v] + multiset(b)[v]
  {
  }

  lemma {:induction false} OccurrencesInAll(reps: seq<RepresentativeMarket>, counts: seq<nat>, v: MomentumValue)
    requires |reps| == |counts|
    requires forall k | 0 <= k < |reps| :: counts[k] == multiset(MarketsOf(reps[k]))[v]
    ensures multiset(AllMarkets(reps))[v] == Total(counts)
    decreases |reps|
  {
    if reps == [] {
    } else {
      var n := |reps| - 1;
      OccurrencesInAll(reps[..n], counts[..n], v);
      CountsJoin(AllMarkets(reps[..n]), MarketsOf(reps[n]), v);
    }
  }

  /** Groups of distinct coins add up: a market that occurs in the group of its coin only occurs as often in all. */
  lemma {:induction false} CountsAddUp(counts: seq<nat>, coins: seq<string>, coin: string, count: nat)
    requires |counts| == |coins| && NoDuplicates(coins)
    requires forall k | 0 <= k < |counts| :: counts[k] == if coins[k] == coin then count else 0
    ensures Total(counts) == if coin in coins then count else 0
    decreases |counts|
  {
    if counts == [] {
    } else {
      var n := |counts| - 1;
      CountsAddUp(counts[..n], coins[..n], coin, count);
      assert coin in coins <==> coin in coins[..n] || coin == coins[n];
    }
  }

  /** The occurrences of `v` group by group: all in the group of its coin. */
  lemma GroupCountsOf(values: seq<MomentumValue>, threshold: real, v: MomentumValue, count: nat)
    returns (counts: seq<nat>)
    requires count == if Qualifies(v, threshold) then multiset(values)[v] else 0
    ensures |counts| == |Aggregated(values, threshold)| == |SortedSet(Coins(values, threshold))|
    ensures forall k | 0 <= k < |counts| ::
              && counts[k] == multiset(MarketsOf(Aggregated(values, threshold)[k]))[v]
              && counts[k] == if SortedSet(Coins(values, threshold))[k] == v.baseCoin then count else 0
  {
    var reps := Aggregated(values, threshold);
    counts := seq(|reps|, k requires 0 <= k < |reps| => multiset(MarketsOf(reps[k]))[v]);
    forall k | 0 <= k < |reps|
      ensures counts[k] == if SortedSet(Coins(values, threshold))[k] == v.baseCoin then count else 0
    {
      GroupMarketCounts(values, threshold, k, v);
    }
  }

  /** A market that qualifies and is listed has its coin among the coins. */
  lemma ListedCoin(values: seq<MomentumValue>, threshold: real, v: MomentumValue)
    requires Qualifies(v, threshold) && v in values
    ensures v.baseCoin in SortedSet(Coins(values, threshold))
  {
    assert v.baseCoin in Coins(values, threshold);
    assert v.baseCoin in Elements(SortedSet(Coins(values, threshold)));
  }

  /** Representatives and others together are exactly the qualifying markets, each as often as it was listed. */
  lemma NothingLostNothingAdded(values: seq<MomentumValue>, threshold: real, v: MomentumValue)
    ensures multiset(AllMarkets(Aggregated(values, threshold)))[v] ==
            if v.change.Some? && v.change.value > threshold then multiset(values)[v] else 0
  {
    var reps := Aggregated(values, threshold);
    var count := if Qualifies(v, threshold) then multiset(values)[v] else 0;
    var counts := GroupCountsOf(values, threshold, v, count);
    CountsAddUp(counts, SortedSet(Coins(values, threshold)), v.baseCoin, count);
    OccurrencesInAll(reps, counts, v);
    if Qualifies(v, threshold) && v in values { ListedCoin(values, threshold, v); }
  }

  /** The fingerprint lists the qualifying coins, one entry a representative. */
  lemma FingerprintListsCoins(values: seq<MomentumValue>, threshold: real)
    ensures Fingerprint(Aggregated(values, threshold)) == SortedSet(Coins(values, threshold))
    ensures |Fingerprint(Aggregated(values, threshold))| == |Aggregated(values, threshold)|
    ensures Ascending(Fingerprint(Aggregated(values, threshold)))
    ensures forall i | 0 <= i < |Aggregated(values, threshold)| ::
              Aggregated(values, threshold)[i].baseCoin == Fingerprint(Aggregated(values, threshold))[i]
    ensures forall coin :: coin in Fingerprint(Aggregated(values, threshold)) <==>
              exists v :: v in values && v.baseCoin == coin && v.change.Some? && v.change.value > threshold
  {
    var reps := Aggregated(values, threshold);
    var coins := SortedSet(Coins(values, threshold));
    var named := set i | 0 <= i < |reps| :: reps[i].baseCoin;
    forall coin ensures coin in named <==> coin in Elements(coins) {
      if coin in Elements(coins) {
        var i :| 0 <= i < |coins| && coins[i] == coin;
        assert reps[i].baseCoin == coin;
      }
    }
    assert named == Coins(values, threshold);
    forall coin ensures coin in coins <==> exists v :: v in values && v.baseCoin == coin && Qualifies(v, threshold) {
      CoinHasMarket(values, threshold, coin);
      assert coin in coins <==> coin in Elements(coins);
    }
  }

  lemma CoinHasMarket(values: seq<MomentumValue>, threshold: real, coin: string)
    ensures coin in Coins(values, threshold) <==>
            exists v :: v in values && v.baseCoin == coin && Qualifies(v, threshold)
  {
    if v :| v in values && v.baseCoin == coin && Qualifies(v, threshold) {
      var i :| 0 <= i < |values| && values[i] == v;
      assert values[i].baseCoin == coin;
    }
    if coin in Coins(values, threshold) {
      var i :| 0 <= i < |values| && Qualifies(values[i], threshold) && values[i].baseCoin == coin;
      assert values[i] in values;
    }
  }

  /** Two results have the same fingerprint if and only if the same coins qualify. */
  lemma FingerprintDecidesCoins(values: seq<MomentumValue>, values': seq<MomentumValue>, threshold: real)
    ensures Fingerprint(Aggregated(values, threshold)) == Fingerprint(Aggregated(values', threshold))
       <==> Coins(values, threshold) == Coins(values', threshold)
  {
    FingerprintListsCoins(values, threshold);
    FingerprintListsCoins(values', threshold);
    assert Elements(SortedSet(Coins(values, threshold))) == Coins(values, threshold);
    assert Elements(SortedSet(Coins(values', threshold))) == Coins(values', threshold);
  }
}
