/**
 * Per-configuration play statistics (gamestatistics.h, gamestatistics.cpp).
 *
 * Entries are kept in a map keyed by the text "<L>x<W> <M>mines" and hold
 * three counters plus the best winning time, for which INT_MAX stands for
 * "no win yet". On disk each entry is a flat record of seven integers in
 * which that sentinel is written as -1.
 */
module Statistics {

  /** The largest 32-bit int: the best-time sentinel of an entry with no win. */
  const INT_MAX: int := 0x7fff_ffff

  /** How the sentinel is written in a persisted record. */
  const NO_WIN: int := -1

  datatype Option<T> = None | Some(value: T)

  // ---------------------------------------------------------------------
  // Entries and their persisted form (gamestatistics.h:19-76)
  // ---------------------------------------------------------------------

  datatype GameStats = GameStats(
    gridLength: int,
    gridWidth: int,
    minesNumber: int,
    gamesPlayed: int,
    gamesWon: int,
    gamesLost: int,
    shortestTime: int
  )

  /** Every game played was either won or lost. */
  predicate Balanced(s: GameStats) {
    s.gamesPlayed == s.gamesWon + s.gamesLost
  }

  /** The GameStats constructor with its member defaults: no game yet, no best time. */
  function NewStats(length: int, width: int, mines: int): (s: GameStats)
    ensures s.gridLength == length && s.gridWidth == width && s.minesNumber == mines
    ensures s.gamesPlayed == 0 && s.gamesWon == 0 && s.gamesLost == 0 && s.shortestTime == INT_MAX
    ensures Balanced(s)
  {
    GameStats(length, width, mines, 0, 0, 0, INT_MAX)
  }

  /** A persisted record: the JSON object with the seven integer fields. */
  datatype JsonRecord = JsonRecord(
    gridLength: int,
    gridWidth: int,
    minesNumber: int,
    gamesPlayed: int,
    gamesWon: int,
    gamesLost: int,
    shortestTime: int
  )

  /** toJson: copies every field, writing the no-win sentinel as -1. */
  function ToJson(s: GameStats): JsonRecord {
    JsonRecord(s.gridLength, s.gridWidth, s.minesNumber, s.gamesPlayed, s.gamesWon, s.gamesLost,
               if s.shortestTime == INT_MAX then NO_WIN else s.shortestTime)
  }

  /** fromJson: reads every field, turning -1 back into the no-win sentinel. */
  function FromJson(r: JsonRecord): GameStats {
    GameStats(r.gridLength, r.gridWidth, r.minesNumber, r.gamesPlayed, r.gamesWon, r.gamesLost,
              if r.shortestTime == NO_WIN then INT_MAX else r.shortestTime)
  }

  /**
   * The record encoding round-trips in both directions: an entry comes back
   * unchanged unless its best time is literally -1, and a record comes back
   * unchanged unless it stores INT_MAX. The sentinel itself survives as -1
   * on disk and INT_MAX in memory.
   */
  lemma JsonRoundTrip(s: GameStats, r: JsonRecord)
    ensures s.shortestTime != NO_WIN ==> FromJson(ToJson(s)) == s
    ensures r.shortestTime != INT_MAX ==> ToJson(FromJson(r)) == r
    ensures s.shortestTime == INT_MAX ==> ToJson(s).shortestTime == NO_WIN
    ensures r.shortestTime == NO_WIN ==> FromJson(r).shortestTime == INT_MAX
  {
  }

  /** The one entry the encoding does not preserve: a best time of -1 reads back as "no win". */
  lemma JsonMinusOneCollapses(s: GameStats)
    requires s.shortestTime == NO_WIN
    ensures FromJson(ToJson(s)) == s.(shortestTime := INT_MAX) && FromJson(ToJson(s)) != s
  {
  }

  // ---------------------------------------------------------------------
  // Keys (gamestatistics.h:159-170)
  // ---------------------------------------------------------------------

  function DigitChar(d: int): (c: char)
    requires 0 <= d < 10
    ensures '0' <= c <= '9' && c as int - '0' as int == d
  {
    ('0' as int + d) as char
  }

  /** The decimal digits of a natural number, most significant first, no leading zero. */
  function Digits(n: nat): (s: string)
    ensures |s| >= 1
  {
    if n < 10 then [DigitChar(n)] else Digits(n / 10) + [DigitChar(n % 10)]
  }

  lemma {:induction false} DigitsAreDigits(n: nat)
    ensures forall k :: 0 <= k < |Digits(n)| ==> '0' <= Digits(n)[k] <= '9'
  {
    if n >= 10 {
      DigitsAreDigits(n / 10);
    }
  }

  /** QString::arg of an int: base 10, with a leading '-' for negative numbers. */
  function Decimal(n: int): string {
    if n < 0 then "-" + Digits(-n) else Digits(n)
  }

  /** generateKey: "<length>x<width> <mines>mines". */
  function GenerateKey(length: int, width: int, mines: int): string {
    Decimal(length) + "x" + Decimal(width) + " " + Decimal(mines) + "mines"
  }

  /** The value of a string of decimal digits. */
  function DigitsValue(s: string): int {
    if s == [] then 0 else DigitsValue(s[..|s| - 1]) * 10 + (s[|s| - 1] as int - '0' as int)
  }

  lemma {:induction false} DigitsRoundTrip(n: nat)
    ensures DigitsValue(Digits(n)) == n
  {
    if n >= 10 {
      var s := Digits(n);
      assert s[..|s| - 1] == Digits(n / 10);
      DigitsRoundTrip(n / 10);
    }
  }

  /** A decimal starts with '-' exactly when the number is negative; the rest is its digits. */
  lemma DecimalShape(n: int)
    ensures |Decimal(n)| >= 1 && (Decimal(n)[0] == '-' <==> n < 0)
    ensures n < 0 ==> Decimal(n)[1..] == Digits(-n)
    ensures n >= 0 ==> Decimal(n) == Digits(n)
  {
    DigitsAreDigits(if n < 0 then -n else n);
    if n >= 0 {
      assert Decimal(n)[0] == Digits(n)[0];
    }
  }

  lemma DecimalInjective(a: int, b: int)
    requires Decimal(a) == Decimal(b)
    ensures a == b
  {
    DecimalShape(a);
    DecimalShape(b);
    var da := if a < 0 then -a else a;
    var db := if b < 0 then -b else b;
    assert (a < 0) == (b < 0);
    assert Digits(da) == Digits(db);
    DigitsRoundTrip(da);
    DigitsRoundTrip(db);
  }

  /** The position of the first `x` in `s`. */
  function IndexOf(s: string, x: char): (i: nat)
    requires x in s
    ensures i < |s| && s[i] == x && x !in s[..i]
  {
    if s[0] == x then 0 else 1 + IndexOf(s[1..], x)
  }

  lemma {:induction false} IndexOfSeparator(a: string, b: string, x: char)
    requires x !in a
    ensures x in a + [x] + b && IndexOf(a + [x] + b, x) == |a|
  {
    assert (a + [x] + b)[|a|] == x;
    if a != [] {
      assert (a + [x] + b)[1..] == a[1..] + [x] + b;
      IndexOfSeparator(a[1..], b, x);
    }
  }

  /** A separator absent from both heads splits two equal strings at the same place. */
  lemma SplitAtSeparator(a: string, b: string, c: string, d: string, x: char)
    requires x !in a && x !in c
    requires a + [x] + b == c + [x] + d
    ensures a == c && b == d
  {
    var s := a + [x] + b;
    IndexOfSeparator(a, b, x);
    IndexOfSeparator(c, d, x);
    assert a == s[..|a|] == c;
    assert b == s[|a| + 1..] == d;
  }

  lemma DecimalHasNo(n: int, x: char)
    requires x == 'x' || x == ' '
    ensures x !in Decimal(n)
  {
    var s := Decimal(n);
    DigitsAreDigits(if n < 0 then -n else n);
    forall k | 0 <= k < |s| ensures s[k] != x {
      if n < 0 && k > 0 {
        assert s[k] == Digits(-n)[k - 1];
      }
    }
  }

  /** The key regrouped around its two separators. */
  lemma KeyParts(length: int, width: int, mines: int)
    ensures GenerateKey(length, width, mines) ==
            Decimal(length) + ['x'] + (Decimal(width) + [' '] + (Decimal(mines) + "mines"))
  {
  }

  /** The key is unique: distinct configurations never share a key. */
  lemma GenerateKeyInjective(l1: int, w1: int, m1: int, l2: int, w2: int, m2: int)
    requires GenerateKey(l1, w1, m1) == GenerateKey(l2, w2, m2)
    ensures l1 == l2 && w1 == w2 && m1 == m2
  {
    var M1, M2 := Decimal(m1) + "mines", Decimal(m2) + "mines";
    KeyParts(l1, w1, m1);
    KeyParts(l2, w2, m2);
    DecimalHasNo(l1, 'x');
    DecimalHasNo(l2, 'x');
    DecimalHasNo(w1, ' ');
    DecimalHasNo(w2, ' ');
    SplitAtSeparator(Decimal(l1), Decimal(w1) + [' '] + M1, Decimal(l2), Decimal(w2) + [' '] + M2, 'x');
    SplitAtSeparator(Decimal(w1), M1, Decimal(w2), M2, ' ');
    assert Decimal(m1) == M1[..|M1| - 5] == M2[..|M2| - 5] == Decimal(m2);
    DecimalInjective(l1, l2);
    DecimalInjective(w1, w2);
    DecimalInjective(m1, m2);
  }

  // ---------------------------------------------------------------------
  // The map of entries
  // ---------------------------------------------------------------------

  type StatsMap = map<string, GameStats>

  function KeyOf(s: GameStats): string {
    GenerateKey(s.gridLength, s.gridWidth, s.minesNumber)
  }

  /** The key a loaded record is stored under. */
  function RecordKey(r: JsonRecord): string {
    GenerateKey(r.gridLength, r.gridWidth, r.minesNumber)
  }

  /** Every entry is filed under the key of its own configuration. */
  ghost predicate KeysMatch(m: StatsMap) {
    forall k :: k in m ==> k == KeyOf(m[k])
  }

  /** getStats on a map: the stored entry, or a fresh default that is not inserted. */
  function Lookup(m: StatsMap, length: int, width: int, mines: int): GameStats {
    var key := GenerateKey(length, width, mines);
    if key in m then m[key] else NewStats(length, width, mines)
  }

  /** Under KeysMatch a lookup only ever answers with the configuration asked for. */
  lemma LookupConfiguration(m: StatsMap, length: int, width: int, mines: int)
    ensures var s := Lookup(m, length, width, mines);
            KeysMatch(m) ==> s.gridLength == length && s.gridWidth == width && s.minesNumber == mines
  {
    var s := Lookup(m, length, width, mines);
    if KeysMatch(m) && GenerateKey(length, width, mines) in m {
      GenerateKeyInjective(length, width, mines, s.gridLength, s.gridWidth, s.minesNumber);
    }
  }

  /**
   * What updateStats does to one entry: one more game, won or lost, and on
   * a win a best time that is the smaller of the old one and `time`.
   */
  function AddOutcome(s: GameStats, won: bool, time: int): (r: GameStats)
    ensures r.gridLength == s.gridLength && r.gridWidth == s.gridWidth && r.minesNumber == s.minesNumber
    ensures r.gamesPlayed == s.gamesPlayed + 1
    ensures r.gamesWon + r.gamesLost == s.gamesWon + s.gamesLost + 1
    ensures Balanced(s) ==> Balanced(r)
    ensures won ==> r.gamesWon == s.gamesWon + 1 && r.gamesLost == s.gamesLost
    ensures won ==> r.shortestTime <= s.shortestTime && r.shortestTime <= time &&
                    (r.shortestTime == s.shortestTime || r.shortestTime == time)
    ensures !won ==> r.gamesLost == s.gamesLost + 1 && r.gamesWon == s.gamesWon && r.shortestTime == s.shortestTime
  {
    var played := s.(gamesPlayed := s.gamesPlayed + 1);
    if won then
      played.(gamesWon := s.gamesWon + 1, shortestTime := if time < s.shortestTime then time else s.shortestTime)
    else
      played.(gamesLost := s.gamesLost + 1)
  }

  /**
   * updateStats on a map, with the configuration's key already computed:
   * create the entry if absent, then add the outcome to it.
   */
  function RecordUnder(m: StatsMap, key: string, length: int, width: int, mines: int, won: bool, time: int): StatsMap {
    m[key := AddOutcome(if key in m then m[key] else NewStats(length, width, mines), won, time)]
  }

  /** updateStats on a map: the outcome filed under the configuration's own key. */
  function Record(m: StatsMap, length: int, width: int, mines: int, won: bool, time: int): (r: StatsMap)
    ensures r.Keys == m.Keys + {GenerateKey(length, width, mines)}
    ensures forall k :: k in m && k != GenerateKey(length, width, mines) ==> r[k] == m[k]
  {
    RecordUnder(m, GenerateKey(length, width, mines), length, width, mines, won, time)
  }

  /** The games recorded for a configuration. */
  function Played(m: StatsMap, length: int, width: int, mines: int): int {
    Lookup(m, length, width, mines).gamesPlayed
  }

  /**
   * updateStats adds exactly one game to its own configuration's entry,
   * which starts from the zero counters and the INT_MAX best time when
   * absent, and keeps every entry balanced and filed under its own key.
   */
  lemma RecordEffect(m: StatsMap, length: int, width: int, mines: int, won: bool, time: int)
    ensures var r := Record(m, length, width, mines, won, time);
            var s, s' := Lookup(m, length, width, mines), Lookup(r, length, width, mines);
            && s' == AddOutcome(s, won, time)
            && (GenerateKey(length, width, mines) !in m ==> s == NewStats(length, width, mines))
            && Played(r, length, width, mines) == Played(m, length, width, mines) + 1
    ensures (forall k :: k in m ==> Balanced(m[k])) ==>
              forall k :: k in Record(m, length, width, mines, won, time) ==>
                Balanced(Record(m, length, width, mines, won, time)[k])
    ensures KeysMatch(m) ==> KeysMatch(Record(m, length, width, mines, won, time))
  {
  }

  /** One played game, as reported to the store. */
  datatype Outcome = Outcome(won: bool, time: int)

  /** Reporting a sequence of games for one configuration, in order. */
  function RecordAll(m: StatsMap, length: int, width: int, mines: int, games: seq<Outcome>): StatsMap {
    if games == [] then m
    else
      var last := games[|games| - 1];
      Record(RecordAll(m, length, width, mines, games[..|games| - 1]), length, width, mines, last.won, last.time)
  }

  function Wins(games: seq<Outcome>): nat {
    if games == [] then 0 else Wins(games[..|games| - 1]) + (if games[|games| - 1].won then 1 else 0)
  }

  /** The smaller of `best` and every winning time in `games`. */
  function BestTime(best: int, games: seq<Outcome>): int {
    if games == [] then best
    else
      var last := games[|games| - 1];
      var b := BestTime(best, games[..|games| - 1]);
      if last.won && last.time < b then last.time else b
  }

  /**
   * k reports with w wins, starting from the entry `s`, add k games, w
   * wins and k - w losses, and leave as best time the minimum of the old
   * one and every winning time.
   */
  lemma {:induction false} RecordAllTotals(m: StatsMap, length: int, width: int, mines: int, games: seq<Outcome>)
    ensures var s, s' := Lookup(m, length, width, mines), Lookup(RecordAll(m, length, width, mines, games), length, width, mines);
            && s'.gamesPlayed == s.gamesPlayed + |games|
            && s'.gamesWon == s.gamesWon + Wins(games)
            && s'.gamesLost == s.gamesLost + |games| - Wins(games)
            && s'.shortestTime == BestTime(s.shortestTime, games)
  {
    if games != [] {
      var prefix := games[..|games| - 1];
      RecordAllTotals(m, length, width, mines, prefix);
      RecordEffect(RecordAll(m, length, width, mines, prefix), length, width, mines,
                   games[|games| - 1].won, games[|games| - 1].time);
    }
  }

  /** A fresh store that records k games reports exactly those games; with no win the best time is still the sentinel. */
  lemma RecordAllFromEmpty(length: int, width: int, mines: int, games: seq<Outcome>)
    ensures var s := Lookup(RecordAll(map[], length, width, mines, games), length, width, mines);
            && s.gamesPlayed == |games| && s.gamesWon == Wins(games) && s.gamesLost == |games| - Wins(games)
            && Balanced(s)
            && (Wins(games) == 0 ==> s.shortestTime == INT_MAX)
  {
    RecordAllTotals(map[], length, width, mines, games);
    if Wins(games) == 0 {
      NoWinKeepsBest(INT_MAX, games);
    }
  }

  lemma {:induction false} NoWinKeepsBest(best: int, games: seq<Outcome>)
    requires Wins(games) == 0
    ensures BestTime(best, games) == best
  {
    if games != [] {
      NoWinKeepsBest(best, games[..|games| - 1]);
    }
  }

  /**
   * A fresh store told of a game won in 87 s and then of one lost in 40 s
   * reports two games played, one won, one lost and a best time of 87.
   */
  lemma RecordWinThenLoss(length: int, width: int, mines: int)
    ensures var m := Record(Record(map[], length, width, mines, true, 87), length, width, mines, false, 40);
            Lookup(m, length, width, mines) == GameStats(length, width, mines, 2, 1, 1, 87)
  {
    var m1 := Record(map[], length, width, mines, true, 87);
    RecordEffect(map[], length, width, mines, true, 87);
    RecordEffect(m1, length, width, mines, false, 40);
  }

  /** Every entry of the map is balanced. */
  ghost predicate AllBalanced(m: StatsMap) {
    forall k :: k in m ==> Balanced(m[k])
  }

  /** The games recorded under `key`; none while the key is absent. */
  function GamesUnder(m: StatsMap, key: string): int {
    if key in m then m[key].gamesPlayed else 0
  }

  /**
   * `m1` is `m0` after `n` reports filed under `key`, whatever their
   * outcomes: that entry counts n more games, every entry already
   * present under another key is untouched, and balanced entries stay
   * balanced.
   */
  ghost predicate Reported(m0: StatsMap, m1: StatsMap, key: string, n: nat) {
    && GamesUnder(m1, key) == GamesUnder(m0, key) + n
    && (forall k :: k in m0 && k != key ==> k in m1 && m1[k] == m0[k])
    && (n == 0 ==> m1 == m0)
    && (AllBalanced(m0) ==> AllBalanced(m1))
  }

  lemma ReportedNone(m: StatsMap, key: string)
    ensures Reported(m, m, key, 0)
  {
  }

  /** One updateStats call is one report under the key it files the outcome under. */
  lemma ReportedOnce(m: StatsMap, key: string, length: int, width: int, mines: int, won: bool, time: int)
    ensures Reported(m, RecordUnder(m, key, length, width, mines, won, time), key, 1)
  {
  }

  lemma ReportedTrans(m0: StatsMap, m1: StatsMap, m2: StatsMap, key: string, a: nat, b: nat)
    requires Reported(m0, m1, key, a) && Reported(m1, m2, key, b)
    ensures Reported(m0, m2, key, a + b)
  {
  }

  /** A store that saw `n` reports under a configuration's key answers getStats with n more games. */
  lemma ReportedPlayed(m0: StatsMap, m1: StatsMap, length: int, width: int, mines: int, n: nat)
    requires Reported(m0, m1, GenerateKey(length, width, mines), n)
    ensures Played(m1, length, width, mines) == Played(m0, length, width, mines) + n
  {
  }

  // ---------------------------------------------------------------------
  // Persistence at the level of record lists (gamestatistics.cpp:63-112)
  // ---------------------------------------------------------------------

  /** A loaded record: the entry it describes and the key it is stored under. */
  datatype Entry = Entry(key: string, stats: GameStats)

  /** fromJson followed by generateKey on the result. */
  function Parse(r: JsonRecord): Entry {
    var s := FromJson(r);
    Entry(KeyOf(s), s)
  }

  function ParseAll(records: seq<JsonRecord>): (es: seq<Entry>)
    ensures |es| == |records| && forall i :: 0 <= i < |records| ==> es[i] == Parse(records[i])
  {
    seq(|records|, i requires 0 <= i < |records| => Parse(records[i]))
  }

  /** Every entry carries the key of its own configuration. */
  ghost predicate EntriesMatch(es: seq<Entry>) {
    forall i :: 0 <= i < |es| ==> es[i].key == KeyOf(es[i].stats)
  }

  /** The keys the first `n` entries are stored under. */
  function EntryKeys(es: seq<Entry>, n: int): set<string>
    requires 0 <= n <= |es|
  {
    if n == 0 then {} else EntryKeys(es, n - 1) + {es[n - 1].key}
  }

  /** Every listed key comes from one of the first `n` entries; `i` is such an entry. */
  lemma {:induction false} EntryKeySource(es: seq<Entry>, n: int, k: string) returns (i: int)
    requires 0 <= n <= |es| && k in EntryKeys(es, n)
    ensures 0 <= i < n && es[i].key == k
  {
    if k == es[n - 1].key {
      i := n - 1;
    } else {
      i := EntryKeySource(es, n - 1, k);
    }
  }

  /**
   * The map after storing the first `n` entries of `es` in order into `m`:
   * each entry overwrites the one under its key; other entries stay.
   */
  function Insert(m: StatsMap, es: seq<Entry>, n: int): StatsMap
    requires 0 <= n <= |es|
  {
    if n == 0 then m else Insert(m, es, n - 1)[es[n - 1].key := es[n - 1].stats]
  }

  /**
   * Storing entries adds exactly their keys, leaves the entries under other
   * keys alone, and keeps every entry under its own configuration's key.
   */
  lemma {:induction false} InsertFacts(m: StatsMap, es: seq<Entry>, n: int)
    requires 0 <= n <= |es|
    ensures Insert(m, es, n).Keys == m.Keys + EntryKeys(es, n)
    ensures forall k :: k in m && k !in EntryKeys(es, n) ==> Insert(m, es, n)[k] == m[k]
    ensures KeysMatch(m) && EntriesMatch(es) ==> KeysMatch(Insert(m, es, n))
  {
    if n > 0 {
      InsertFacts(m, es, n - 1);
    }
  }

  /** When a key occurs several times, the last entry with it wins. */
  lemma {:induction false} InsertLastWins(m: StatsMap, es: seq<Entry>, n: int, i: int)
    requires 0 <= i < n <= |es|
    requires forall j :: i < j < n ==> es[j].key != es[i].key
    ensures es[i].key in Insert(m, es, n) && Insert(m, es, n)[es[i].key] == es[i].stats
  {
    if i < n - 1 {
      InsertLastWins(m, es, n - 1, i);
    }
  }

  /** loadFromFile on a map: every record of the file is stored in order. */
  function LoadRecords(m: StatsMap, records: seq<JsonRecord>): (r: StatsMap)
    ensures r.Keys == m.Keys + EntryKeys(ParseAll(records), |records|)
    ensures forall k :: k in m && k !in EntryKeys(ParseAll(records), |records|) ==> r[k] == m[k]
    ensures KeysMatch(m) ==> KeysMatch(r)
  {
    InsertFacts(m, ParseAll(records), |records|);
    Insert(m, ParseAll(records), |records|)
  }

  /**
   * When a key occurs several times in a file, the entry stored under it
   * is the one read from the last record with that key.
   */
  lemma LoadLastWins(m: StatsMap, records: seq<JsonRecord>, i: int)
    requires 0 <= i < |records|
    requires forall j :: i < j < |records| ==> Parse(records[j]).key != Parse(records[i]).key
    ensures var key := Parse(records[i]).key;
            key in LoadRecords(m, records) && LoadRecords(m, records)[key] == FromJson(records[i])
  {
    InsertLastWins(m, ParseAll(records), |records|, i);
  }

  /**
   * `records` is what saveToFile writes for `m`: one record per entry, in
   * the order of the distinct keys `keys`, which are all of m's keys.
   */
  ghost predicate Snapshot(m: StatsMap, records: seq<JsonRecord>, keys: seq<string>) {
    && |records| == |keys| == |m|
    && (forall i :: 0 <= i < |keys| ==> keys[i] in m && records[i] == ToJson(m[keys[i]]))
    && (forall k :: k in m ==> k in keys)
    && (forall a, b :: 0 <= a < b < |keys| ==> keys[a] != keys[b])
  }

  /** A saved entry reads back as itself, under its own key. */
  lemma ParseSaved(s: GameStats, key: string)
    requires key == KeyOf(s) && s.shortestTime != NO_WIN
    ensures Parse(ToJson(s)) == Entry(key, s)
  {
    JsonRoundTrip(s, ToJson(s));
  }

  /**
   * Saving a store and loading the records into an empty store gives back
   * every entry, the no-win sentinel included, provided entries are filed
   * under their own keys and no best time is literally -1.
   */
  lemma SaveLoadRoundTrip(m: StatsMap, records: seq<JsonRecord>, keys: seq<string>)
    requires KeysMatch(m)
    requires forall k :: k in m ==> m[k].shortestTime != NO_WIN
    requires Snapshot(m, records, keys)
    ensures LoadRecords(map[], records) == m
  {
    var es := ParseAll(records);
    forall i | 0 <= i < |es| ensures es[i] == Entry(keys[i], m[keys[i]]) {
      ParseSaved(m[keys[i]], keys[i]);
    }
    InsertListing(m, es, keys);
  }

  /** Storing one entry per key of `m`, each under distinct keys, rebuilds `m`. */
  lemma InsertListing(m: StatsMap, es: seq<Entry>, keys: seq<string>)
    requires |es| == |keys|
    requires forall i :: 0 <= i < |keys| ==> keys[i] in m && es[i] == Entry(keys[i], m[keys[i]])
    requires forall k :: k in m ==> k in keys
    requires forall a, b :: 0 <= a < b < |keys| ==> keys[a] != keys[b]
    ensures Insert(map[], es, |es|) == m
  {
    var r := Insert(map[], es, |es|);
    InsertFacts(map[], es, |es|);
    forall k | k in r ensures k in m {
      var i := EntryKeySource(es, |es|, k);
      assert es[i].key == keys[i];
    }
    forall k | k in m ensures k in r && r[k] == m[k] {
      var i :| 0 <= i < |keys| && keys[i] == k;
      forall j | i < j < |es| ensures es[j].key != es[i].key {
        assert es[j].key == keys[j] && es[i].key == keys[i];
      }
      InsertLastWins(map[], es, |es|, i);
    }
    assert r.Keys == m.Keys;
  }

  // ---------------------------------------------------------------------
  // The store object (gamestatistics.h:89-171, gamestatistics.cpp)
  // ---------------------------------------------------------------------

  class GameStatistics {
    var statsMap: StatsMap

    /** An empty store. */
    constructor ()
      ensures statsMap == map[]
    {
      statsMap := map[];
    }

    /** updateStats: report one finished game. */
    method UpdateStats(length: int, width: int, mines: int, won: bool, time: int)
      modifies this
      ensures statsMap == Record(old(statsMap), length, width, mines, won, time)
    {
      var key := GenerateKey(length, width, mines);
      ghost var before := statsMap;
      if key !in statsMap {
        statsMap := statsMap[key := NewStats(length, width, mines)];
      }
      var stats := statsMap[key];
      assert stats == Lookup(before, length, width, mines);
      stats := stats.(gamesPlayed := stats.gamesPlayed + 1);
      if won {
        stats := stats.(gamesWon := stats.gamesWon + 1);
        if time < stats.shortestTime {
          stats := stats.(shortestTime := time);
        }
      } else {
        stats := stats.(gamesLost := stats.gamesLost + 1);
      }
      assert stats == AddOutcome(Lookup(before, length, width, mines), won, time);
      statsMap := statsMap[key := stats];
      assert statsMap == before[key := stats];
    }

    /**
     * saveToFile without the file: the list of records written, one per
     * entry. `keys` names the entry each record came from.
     */
    method SaveToFile() returns (records: seq<JsonRecord>, ghost keys: seq<string>)
      ensures Snapshot(statsMap, records, keys)
      ensures KeysMatch(statsMap) ==> forall a, b :: 0 <= a < b < |records| ==> records[a] != records[b]
    {
      records, keys := [], [];
      var remaining := statsMap.Keys;
      while remaining != {}
        invariant remaining <= statsMap.Keys
        invariant |records| == |keys| && |keys| + |remaining| == |statsMap.Keys|
        invariant forall i :: 0 <= i < |keys| ==>
                    keys[i] in statsMap && keys[i] !in remaining && records[i] == ToJson(statsMap[keys[i]])
        invariant forall k :: k in statsMap && k !in remaining ==> k in keys
        invariant forall a, b :: 0 <= a < b < |keys| ==> keys[a] != keys[b]
        decreases |remaining|
      {
        var k :| k in remaining;
        records := records + [ToJson(statsMap[k])];
        keys := keys + [k];
        remaining := remaining - {k};
      }
      assert |statsMap| == |statsMap.Keys|;
      if KeysMatch(statsMap) {
        forall a, b | 0 <= a < b < |records| ensures records[a] != records[b] {
          assert RecordKey(records[a]) == KeyOf(statsMap[keys[a]]) == keys[a];
          assert RecordKey(records[b]) == KeyOf(statsMap[keys[b]]) == keys[b];
        }
      }
    }

    /**
     * loadFromFile without the file: `file` is None when it cannot be
     * opened, and otherwise holds its records in order.
     */
    method LoadFromFile(file: Option<seq<JsonRecord>>)
      modifies this
      ensures file.None? ==> statsMap == old(statsMap)
      ensures file.Some? ==> statsMap == LoadRecords(old(statsMap), file.value)
    {
      if file.Some? {
        var records := file.value;
        ghost var es := ParseAll(records);
        var i := 0;
        while i < |records|
          invariant 0 <= i <= |records|
          invariant statsMap == Insert(old(statsMap), es, i)
        {
          var stats := FromJson(records[i]);
          var key := GenerateKey(stats.gridLength, stats.gridWidth, stats.minesNumber);
          assert es[i] == Entry(key, stats);
          statsMap := statsMap[key := stats];
          i := i + 1;
        }
      }
    }

    /**
     * getStats: the entry for a configuration, or a fresh default for it
     * that is not inserted. While entries are filed under their own keys the
     * result is always about the configuration asked for.
     */
    function GetStats(length: int, width: int, mines: int): (s: GameStats)
      reads this
      ensures KeysMatch(statsMap) ==> s.gridLength == length && s.gridWidth == width && s.minesNumber == mines
      ensures GenerateKey(length, width, mines) !in statsMap ==> s == NewStats(length, width, mines)
      ensures GenerateKey(length, width, mines) in statsMap ==> s == statsMap[GenerateKey(length, width, mines)]
    {
      LookupConfiguration(statsMap, length, width, mines);
      Lookup(statsMap, length, width, mines)
    }
  }
}
