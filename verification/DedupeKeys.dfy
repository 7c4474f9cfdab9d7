/**
 The dedupe keys of outgoing messages as the strings they are, and why two committed decisions of a run
 never share one.
 */
module DedupeKeys {
  import opened Wrappers
  import opened Ordering
  import opened AlertMachine
  import opened AlertTrace

  function Digit(d: nat): char
    requires d < 10
  {
    "0123456789"[d]
  }

  function DecimalNat(n: nat): (s: string)
    ensures s != [] && ':' !in s && '-' !in s
  {
    if n < 10 then [Digit(n)] else DecimalNat(n / 10) + [Digit(n % 10)]
  }

  /** A number as the program prints it. */
  function Decimal(n: int): (s: string)
    ensures ':' !in s
    ensures s != [] && (s[0] == '-' <==> n < 0)
  {
    if n < 0 then "-" + DecimalNat(-n) else DecimalNat(n)
  }

  /** The number that a text of digits stands for. */
  function ReadDigits(s: string): int
    decreases |s|
  {
    if s == "" then 0 else ReadDigits(s[..|s| - 1]) * 10 + (s[|s| - 1] as int - '0' as int)
  }

  /** A number is printed in decimal digits that read back as it, without leading zeros. */
  lemma {:induction false} DecimalReadsBack(n: nat)
    ensures var s := DecimalNat(n);
            && ReadDigits(s) == n && (forall i | 0 <= i < |s| :: '0' <= s[i] <= '9')
            && (s[0] == '0' ==> n == 0) && (n == 0 ==> s == "0")
  {
    if n < 10 {
      assert DecimalNat(n)[..0] == "";
      DigitReads(n);
    } else {
      DecimalReadsBack(n / 10);
      DigitReads(n % 10);
      var s := DecimalNat(n);
      assert s[..|s| - 1] == DecimalNat(n / 10) && s[|s| - 1] == Digit(n % 10);
    }
  }

  lemma DigitReads(d: nat)
    requires d < 10
    ensures '0' <= Digit(d) <= '9' && Digit(d) as int - '0' as int == d
  {
  }

  lemma {:induction false} DecimalNatInjective(a: nat, b: nat)
    requires DecimalNat(a) == DecimalNat(b)
    ensures a == b
    decreases a
  {
    var s, t := DecimalNat(a), DecimalNat(b);
    assert s[|s| - 1] == Digit(a % 10) && t[|t| - 1] == Digit(b % 10);
    if a >= 10 && b >= 10 {
      assert s[..|s| - 1] == DecimalNat(a / 10) && t[..|t| - 1] == DecimalNat(b / 10);
      DecimalNatInjective(a / 10, b / 10);
    }
  }

  lemma DecimalInjective(a: int, b: int)
    requires Decimal(a) == Decimal(b)
    ensures a == b
  {
    if a < 0 && b < 0 {
      assert Decimal(a)[1..] == DecimalNat(-a) && Decimal(b)[1..] == DecimalNat(-b);
      DecimalNatInjective(-a, -b);
    } else if a >= 0 && b >= 0 {
      DecimalNatInjective(a, b);
    }
  }

  /** `":".join(coins)` */
  function JoinCoins(coins: seq<string>): string {
    if coins == [] then "" else if |coins| == 1 then coins[0] else coins[0] + ":" + JoinCoins(coins[1..])
  }

  function TransitionKey(now: int, coins: seq<string>): string {
    "transition:" + (Decimal(now) + ":" + JoinCoins(coins))
  }

  /** The calendar text of the hour is replaced by its number, which it determines and is determined by. */
  function HourlyKey(hour: int, coins: seq<string>): string {
    "hourly:" + (Decimal(hour) + ":" + JoinCoins(coins))
  }

  function CompositionKey(coins: seq<string>, slot: int): string {
    "composition:" + (JoinCoins(coins) + ":" + Decimal(slot))
  }

  function ListingKey(eventKey: string): string {
    "listing:" + eventKey
  }

  /** The key of a message; a composition cooldown of zero seconds makes the program divide by zero. */
  function KeyFor(cfg: Config, kind: Kind, cycle: Cycle): Option<string> {
    match kind
    case TransitionMessage => Some(TransitionKey(cycle.now, cycle.coins))
    case HourlyMessage => Some(HourlyKey(HourOf(cycle.now), cycle.coins))
    case CompositionMessage =>
      if cfg.cooldown == 0 then None else Some(CompositionKey(cycle.coins, cycle.now / cfg.cooldown))
  }

  function BeforeFirstColon(s: string): string
    decreases |s|
  {
    if s == "" || s[0] == ':' then "" else [s[0]] + BeforeFirstColon(s[1..])
  }

  function AfterLastColon(s: string): string
    decreases |s|
  {
    if s == "" || s[|s| - 1] == ':' then "" else AfterLastColon(s[..|s| - 1]) + [s[|s| - 1]]
  }

  lemma {:induction false} FirstPiece(a: string, x: string)
    requires ':' !in a
    ensures BeforeFirstColon(a + ":" + x) == a
    decreases |a|
  {
    if a == "" {
      assert (a + ":" + x)[0] == ':';
    } else {
      assert (a + ":" + x)[1..] == a[1..] + ":" + x;
      FirstPiece(a[1..], x);
    }
  }

  lemma {:induction false} LastPiece(x: string, a: string)
    requires ':' !in a
    ensures AfterLastColon(x + ":" + a) == a
    decreases |a|
  {
    var s := x + ":" + a;
    if a == "" {
      assert s[|s| - 1] == ':';
    } else {
      assert s[|s| - 1] == a[|a| - 1] && s[..|s| - 1] == x + ":" + a[..|a| - 1];
      LastPiece(x, a[..|a| - 1]);
    }
  }

  lemma TransitionKeyNamesSecond(now: int, coins: seq<string>, now': int, coins': seq<string>)
    requires TransitionKey(now, coins) == TransitionKey(now', coins')
    ensures now == now'
  {
    var p := |"transition:"|;
    assert TransitionKey(now, coins)[p..] == Decimal(now) + ":" + JoinCoins(coins);
    assert TransitionKey(now', coins')[p..] == Decimal(now') + ":" + JoinCoins(coins');
    FirstPiece(Decimal(now), JoinCoins(coins));
    FirstPiece(Decimal(now'), JoinCoins(coins'));
    DecimalInjective(now, now');
  }

  lemma HourlyKeyNamesHour(hour: int, coins: seq<string>, hour': int, coins': seq<string>)
    requires HourlyKey(hour, coins) == HourlyKey(hour', coins')
    ensures hour == hour'
  {
    var p := |"hourly:"|;
    assert HourlyKey(hour, coins)[p..] == Decimal(hour) + ":" + JoinCoins(coins);
    assert HourlyKey(hour', coins')[p..] == Decimal(hour') + ":" + JoinCoins(coins');
    FirstPiece(Decimal(hour), JoinCoins(coins));
    FirstPiece(Decimal(hour'), JoinCoins(coins'));
    DecimalInjective(hour, hour');
  }

  lemma CompositionKeyNamesSlot(coins: seq<string>, slot: int, coins': seq<string>, slot': int)
    requires CompositionKey(coins, slot) == CompositionKey(coins', slot')
    ensures slot == slot'
  {
    var p := |"composition:"|;
    assert CompositionKey(coins, slot)[p..] == JoinCoins(coins) + ":" + Decimal(slot);
    assert CompositionKey(coins', slot')[p..] == JoinCoins(coins') + ":" + Decimal(slot');
    LastPiece(JoinCoins(coins), Decimal(slot));
    LastPiece(JoinCoins(coins'), Decimal(slot'));
    DecimalInjective(slot, slot');
  }

  /** Names that joining with colons does not blur. */
  predicate PlainCoins(coins: seq<string>) {
    forall i | 0 <= i < |coins| :: coins[i] != "" && ':' !in coins[i]
  }

  /** Joined plain coins determine the list. */
  lemma {:induction false} JoinedCoinsNameList(a: seq<string>, b: seq<string>)
    requires PlainCoins(a) && PlainCoins(b) && JoinCoins(a) == JoinCoins(b)
    ensures a == b
    decreases |a|
  {
    JoinedShape(a);
    JoinedShape(b);
    if |a| <= 1 || |b| <= 1 {
    } else {
      FirstPiece(a[0], JoinCoins(a[1..]));
      FirstPiece(b[0], JoinCoins(b[1..]));
      var n := |a[0]| + 1;
      assert JoinCoins(a)[n..] == JoinCoins(a[1..]) && JoinCoins(b)[n..] == JoinCoins(b[1..]);
      JoinedCoinsNameList(a[1..], b[1..]);
      assert a == [a[0]] + a[1..] && b == [b[0]] + b[1..];
    }
  }

  /** Whether nothing, one name, or several were joined. */
  lemma JoinedShape(coins: seq<string>)
    requires PlainCoins(coins)
    ensures JoinCoins(coins) == "" <==> coins == []
    ensures ':' in JoinCoins(coins) <==> |coins| > 1
    ensures |coins| == 1 ==> coins == [JoinCoins(coins)]
  {
    if |coins| > 1 { assert JoinCoins(coins)[|coins[0]|] == ':'; }
  }

  lemma SamePrefix(a: string, x: string, y: string)
    requires a + x == a + y
    ensures x == y
  {
    assert (a + x)[|a|..] == x && (a + y)[|a|..] == y;
  }

  lemma SameSuffix(x: string, y: string, b: string, d: string)
    requires x + b + d == y + b + d
    ensures x == y
  {
    assert |x| == |y|;
    assert (x + b + d)[..|x|] == x && (y + b + d)[..|y|] == y;
  }

  lemma TransitionKeyNamesCoins(now: int, coins: seq<string>, coins': seq<string>)
    requires TransitionKey(now, coins) == TransitionKey(now, coins')
    ensures JoinCoins(coins) == JoinCoins(coins')
  {
    var p := "transition:" + (Decimal(now) + ":");
    assert TransitionKey(now, coins) == p + JoinCoins(coins) && TransitionKey(now, coins') == p + JoinCoins(coins');
    SamePrefix(p, JoinCoins(coins), JoinCoins(coins'));
  }

  lemma HourlyKeyNamesCoins(hour: int, coins: seq<string>, coins': seq<string>)
    requires HourlyKey(hour, coins) == HourlyKey(hour, coins')
    ensures JoinCoins(coins) == JoinCoins(coins')
  {
    var p := "hourly:" + (Decimal(hour) + ":");
    assert HourlyKey(hour, coins) == p + JoinCoins(coins) && HourlyKey(hour, coins') == p + JoinCoins(coins');
    SamePrefix(p, JoinCoins(coins), JoinCoins(coins'));
  }

  lemma CompositionKeyNamesCoins(coins: seq<string>, coins': seq<string>, slot: int)
    requires CompositionKey(coins, slot) == CompositionKey(coins', slot)
    ensures JoinCoins(coins) == JoinCoins(coins')
  {
    SamePrefix("composition:", JoinCoins(coins) + ":" + Decimal(slot), JoinCoins(coins') + ":" + Decimal(slot));
    SameSuffix(JoinCoins(coins), JoinCoins(coins'), ":", Decimal(slot));
  }

  /** Two messages with one key are of one kind and of the same coins. */
  lemma KeysNameCoins(cfg: Config, k: Kind, c: Cycle, k': Kind, c': Cycle)
    requires PlainCoins(c.coins) && PlainCoins(c'.coins)
    requires KeyFor(cfg, k, c).Some? && KeyFor(cfg, k, c) == KeyFor(cfg, k', c')
    ensures k == k' && c.coins == c'.coins
  {
    KeysOfKindsDiffer(cfg, k, c, k', c', "");
    match k {
      case TransitionMessage =>
        TransitionKeyNamesSecond(c.now, c.coins, c'.now, c'.coins);
        TransitionKeyNamesCoins(c.now, c.coins, c'.coins);
      case HourlyMessage =>
        HourlyKeyNamesHour(HourOf(c.now), c.coins, HourOf(c'.now), c'.coins);
        HourlyKeyNamesCoins(HourOf(c.now), c.coins, c'.coins);
      case CompositionMessage =>
        CompositionKeyNamesSlot(c.coins, c.now / cfg.cooldown, c'.coins, c'.now / cfg.cooldown);
        CompositionKeyNamesCoins(c.coins, c'.coins, c.now / cfg.cooldown);
    }
    JoinedCoinsNameList(c.coins, c'.coins);
  }

  /** The first letters keep the kinds apart. */
  lemma KeysOfKindsDiffer(cfg: Config, k: Kind, c: Cycle, k': Kind, c': Cycle, eventKey: string)
    requires KeyFor(cfg, k, c).Some?
    ensures KeyFor(cfg, k, c) != Some(ListingKey(eventKey))
    ensures k != k' ==> KeyFor(cfg, k, c) != KeyFor(cfg, k', c')
  {
    assert KeyFor(cfg, k, c).value[0] == (if k.TransitionMessage? then 't' else if k.HourlyMessage? then 'h' else 'c');
    assert ListingKey(eventKey)[0] == 'l';
    if KeyFor(cfg, k', c').Some? {
      assert KeyFor(cfg, k', c').value[0] ==
        (if k'.TransitionMessage? then 't' else if k'.HourlyMessage? then 'h' else 'c');
    }
  }

  /** The key of the message of cycle `i` of a run. */
  function KeyAt(cfg: Config, cycles: seq<Cycle>, i: nat): Option<string>
    requires i < |cycles|
  {
    var kind := KindAt(cfg, cycles, i);
    if kind.None? then None else KeyFor(cfg, kind.value, cycles[i])
  }

  lemma SlotsDiffer(a: int, b: int, cooldown: nat)
    requires cooldown >= 1 && b - a >= cooldown
    ensures a / cooldown != b / cooldown
  {
    assert a == cooldown * (a / cooldown) + a % cooldown;
    assert b == cooldown * (b / cooldown) + b % cooldown;
  }

  /** Two messages of one kind, both with a key, have different keys, or they are two transitions in one second. */
  lemma SameKindKeys(cfg: Config, cycles: seq<Cycle>, i: nat, j: nat)
    requires i < j < |cycles| && ClockMonotone(cycles)
    requires KeyAt(cfg, cycles, i).Some? && KeyAt(cfg, cycles, i) == KeyAt(cfg, cycles, j)
    requires KindAt(cfg, cycles, i) == KindAt(cfg, cycles, j)
    ensures KindAt(cfg, cycles, j) == Some(TransitionMessage) && cycles[i].now == cycles[j].now
  {
    match KindAt(cfg, cycles, i).value
    case TransitionMessage =>
      TransitionKeyNamesSecond(cycles[i].now, cycles[i].coins, cycles[j].now, cycles[j].coins);
    case HourlyMessage =>
      HourlyKeyNamesHour(HourOf(cycles[i].now), cycles[i].coins, HourOf(cycles[j].now), cycles[j].coins);
      HourlyMessageRate(cfg, cycles, i, j);
    case CompositionMessage =>
      var slot, slot' := cycles[i].now / cfg.cooldown, cycles[j].now / cfg.cooldown;
      CompositionKeyNamesSlot(cycles[i].coins, slot, cycles[j].coins, slot');
      CompositionsSpaced(cfg, cycles, i, j);
      SlotsDiffer(cycles[i].now, cycles[j].now, cfg.cooldown);
  }

  /**
   What a shared key means, on any run whose clock never goes back: there is no debounce, both messages are
   transitions of one second and the same coins, and the later one has just entered the active range. So the
   state its cycle would store is never the one that is stored already.
   */
  lemma SharedKeyMeans(cfg: Config, cycles: seq<Cycle>, i: nat, j: nat)
    requires i < j < |cycles| && ClockMonotone(cycles)
    requires KeyAt(cfg, cycles, i).Some? && KeyAt(cfg, cycles, i) == KeyAt(cfg, cycles, j)
    ensures cfg.debounce == 0 && cfg.transitionAlerts
    ensures KindAt(cfg, cycles, i) == KindAt(cfg, cycles, j) == Some(TransitionMessage)
    ensures cycles[i].now == cycles[j].now
    ensures PlainCoins(cycles[i].coins) && PlainCoins(cycles[j].coins) ==> cycles[i].coins == cycles[j].coins
    ensures !Before(cfg, cycles, j).range.ActiveRange? && Before(cfg, cycles, j + 1).range.ActiveRange?
    ensures Before(cfg, cycles, j + 1) != Before(cfg, cycles, j)
  {
    var ki, kj := KindAt(cfg, cycles, i).value, KindAt(cfg, cycles, j).value;
    KeysOfKindsDiffer(cfg, ki, cycles[i], kj, cycles[j], "");
    SameKindKeys(cfg, cycles, i, j);
    if PlainCoins(cycles[i].coins) && PlainCoins(cycles[j].coins) {
      KeysNameCoins(cfg, ki, cycles[i], kj, cycles[j]);
    }
    TransitionsApart(cfg, cycles, i, j);
    UndebouncedEnters(cfg, cycles, j);
    BeforeNext(cfg, cycles, j);
  }

  /** Without a debounce a transition comes at the very cycle that enters the active range. */
  lemma UndebouncedEnters(cfg: Config, cycles: seq<Cycle>, j: nat)
    requires j < |cycles| && cfg.debounce == 0 && DecisionAt(cfg, cycles, j).transition
    ensures !Before(cfg, cycles, j).range.ActiveRange?
  {
    ExactDebounce(cfg, cycles, j);
    var e := EpisodeStart(cfg, cycles, j);
    assert Ripe(cfg, cycles, e, e) && e == j;
    DebounceStateHolds(cfg, cycles, j);
  }

  /** With a debounce, or without transition alerts, the messages of any two cycles of a run have different keys. */
  lemma KeysDistinct(cfg: Config, cycles: seq<Cycle>, i: nat, j: nat)
    requires i < j < |cycles| && ClockMonotone(cycles)
    requires cfg.debounce >= 1 || !cfg.transitionAlerts
    requires KeyAt(cfg, cycles, i).Some?
    ensures KeyAt(cfg, cycles, i) != KeyAt(cfg, cycles, j)
  {
    if KeyAt(cfg, cycles, i) == KeyAt(cfg, cycles, j) { SharedKeyMeans(cfg, cycles, i, j); }
  }

  /** Two live transitions are at least the debounce apart. */
  lemma TransitionsApart(cfg: Config, cycles: seq<Cycle>, i: nat, j: nat)
    requires i < j < |cycles| && ClockMonotone(cycles)
    requires DecisionAt(cfg, cycles, i).transition && DecisionAt(cfg, cycles, j).transition
    ensures cycles[j].now - cycles[i].now >= cfg.debounce
  {
    OneTransitionPerEpisode(cfg, cycles, i, j);
    ExactDebounce(cfg, cycles, j);
    assert cycles[i].now <= cycles[EpisodeStart(cfg, cycles, j)].now;
  }

  // ---------------------------------------------------------------------------------------------
  // The exact condition
  // ---------------------------------------------------------------------------------------------

  ghost predicate AllKeysDistinct(cfg: Config) {
    forall cycles: seq<Cycle>, i: nat, j: nat
      | i < j < |cycles| && ClockMonotone(cycles) && KeyAt(cfg, cycles, i).Some? ::
      KeyAt(cfg, cycles, i) != KeyAt(cfg, cycles, j)
  }

  /** In and out of the active range and in again, with the same coins, all in one second. */
  function InAndOut(cfg: Config, now: int): seq<Cycle> {
    var inside, outside := Cycle(CoinList(0, cfg.minCoins), now), Cycle(CoinList(0, cfg.maxCoins + 1), now);
    [inside, outside, inside]
  }

  lemma InAndOutShares(cfg: Config, now: int)
    requires cfg.debounce == 0 && cfg.transitionAlerts && cfg.minCoins <= cfg.maxCoins
    ensures var cycles := InAndOut(cfg, now);
            && ClockMonotone(cycles)
            && (forall k | 0 <= k < |cycles| :: Ascending(cycles[k].coins))
            && KeyAt(cfg, cycles, 0).Some? && KeyAt(cfg, cycles, 0) == KeyAt(cfg, cycles, 2)
  {
    var cycles := InAndOut(cfg, now);
    CoinListAscends(0, cfg.minCoins);
    CoinListAscends(0, cfg.maxCoins + 1);
    assert Active(cfg, cycles, 0) && !Active(cfg, cycles, 1) && Active(cfg, cycles, 2);
    ExactDebounce(cfg, cycles, 0);
    ExactDebounce(cfg, cycles, 2);
  }

  /**
   The keys of all messages of all runs whose clock never goes back are distinct if and only if there is a
   debounce, or no transition is announced, or no count is in range.
   */
  lemma KeysDistinctExactly(cfg: Config)
    ensures AllKeysDistinct(cfg) <==> cfg.debounce >= 1 || !cfg.transitionAlerts || cfg.minCoins > cfg.maxCoins
  {
    if cfg.debounce >= 1 || !cfg.transitionAlerts || cfg.minCoins > cfg.maxCoins {
      forall cycles: seq<Cycle>, i: nat, j: nat
        | i < j < |cycles| && ClockMonotone(cycles) && KeyAt(cfg, cycles, i).Some?
        ensures KeyAt(cfg, cycles, i) != KeyAt(cfg, cycles, j)
      {
        if cfg.minCoins > cfg.maxCoins {
          NoMessageOutOfRange(cfg, cycles, i);
        } else {
          KeysDistinct(cfg, cycles, i, j);
        }
      }
    } else {
      InAndOutShares(cfg, 0);
    }
  }
}
