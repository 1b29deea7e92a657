/** What is worth waking someone for, said once: strikes before an alert, a latch that holds it,
    and a margin below the limit before it is taken back. */
module Alerting {
  import opened Wrappers

  datatype Level = Critical | Resolved

  const STRIKES: nat := 2

  // One key's history

  /** How many checks failed in a row, up to the last. */
  function Strikes(checks: seq<bool>): nat {
    if checks == [] || !checks[|checks| - 1] then 0 else 1 + Strikes(checks[..|checks| - 1])
  }

  /** The last two checks both failed. */
  predicate Down(checks: seq<bool>) {
    |checks| >= 2 && checks[|checks| - 1] && checks[|checks| - 2]
  }

  /** One message more when a condition starts or ends. */
  function Told(messages: seq<Level>, was: bool, is': bool): seq<Level> {
    if is' && !was then messages + [Critical] else if was && !is' then messages + [Resolved] else messages
  }

  function CheckMessages(checks: seq<bool>): seq<Level> {
    if checks == [] then []
    else Told(CheckMessages(checks[..|checks| - 1]), Down(checks[..|checks| - 1]), Down(checks))
  }

  /** Full, from a reading at the limit on, until one is well below it. */
  predicate Full(readings: seq<int>, limit: int) {
    readings != [] &&
    (readings[|readings| - 1] >= limit ||
     (readings[|readings| - 1] >= limit - 5 && Full(readings[..|readings| - 1], limit)))
  }

  function GaugeMessages(readings: seq<int>, limit: int): seq<Level> {
    if readings == [] then []
    else Told(GaugeMessages(readings[..|readings| - 1], limit), Full(readings[..|readings| - 1], limit), Full(readings, limit))
  }

  // What the histories mean

  /** Critical first, then each the other of the one before. */
  predicate Alternates(messages: seq<Level>) {
    forall i | 0 <= i < |messages| :: messages[i] == if i % 2 == 0 then Critical else Resolved
  }

  lemma ToldAlternates(messages: seq<Level>, was: bool, is': bool)
    requires Alternates(messages) && (was <==> |messages| % 2 == 1)
    ensures Alternates(Told(messages, was, is')) && (is' <==> |Told(messages, was, is')| % 2 == 1)
  {
  }

  /** For every history of checks, the messages alternate, starting with a critical one, and the
      last was critical exactly while the last two checks failed. */
  lemma {:induction false} ChecksAlternate(checks: seq<bool>)
    ensures Alternates(CheckMessages(checks))
    ensures Down(checks) <==> |CheckMessages(checks)| % 2 == 1
  {
    if checks != [] {
      ChecksAlternate(checks[..|checks| - 1]);
      ToldAlternates(CheckMessages(checks[..|checks| - 1]), Down(checks[..|checks| - 1]), Down(checks));
    }
  }

  lemma {:induction false} GaugesAlternate(readings: seq<int>, limit: int)
    ensures Alternates(GaugeMessages(readings, limit))
    ensures Full(readings, limit) <==> |GaugeMessages(readings, limit)| % 2 == 1
  {
    if readings != [] {
      var before := readings[..|readings| - 1];
      GaugesAlternate(before, limit);
      ToldAlternates(GaugeMessages(before, limit), Full(before, limit), Full(readings, limit));
    }
  }

  /** Two or more failures in a row start here. */
  predicate StretchStarts(checks: seq<bool>, i: nat) {
    i + 1 < |checks| && checks[i] && checks[i + 1] && (i == 0 || !checks[i - 1])
  }

  function Stretches(checks: seq<bool>): set<nat> {
    set i: nat | i < |checks| && StretchStarts(checks, i)
  }

  function Criticals(messages: seq<Level>): nat {
    if messages == [] then 0
    else Criticals(messages[..|messages| - 1]) + if messages[|messages| - 1] == Critical then 1 else 0
  }

  lemma CriticalsTold(messages: seq<Level>, was: bool, is': bool)
    ensures Criticals(Told(messages, was, is')) == Criticals(messages) + if is' && !was then 1 else 0
  {
    if was != is' {
      var more := Told(messages, was, is');
      assert more[..|more| - 1] == messages;
    }
  }

  /** A check more adds a stretch exactly when it makes the last two failed for the first time. */
  lemma StretchesGrow(checks: seq<bool>)
    requires checks != []
    ensures var before := checks[..|checks| - 1];
            |Stretches(checks)| == |Stretches(before)| + if Down(checks) && !Down(before) then 1 else 0
  {
    var n := |checks|;
    var before := checks[..n - 1];
    forall i: nat | i + 1 < n - 1 ensures StretchStarts(checks, i) <==> StretchStarts(before, i) {
    }
    assert Down(checks) && !Down(before) <==> n >= 2 && StretchStarts(checks, n - 2);
    if Down(checks) && !Down(before) {
      assert Stretches(checks) == Stretches(before) + {n - 2};
    } else {
      assert Stretches(checks) == Stretches(before);
    }
  }

  /** As many critical messages are sent as there are stretches of two or more failed checks. */
  lemma {:induction false} OneCriticalPerStretch(checks: seq<bool>)
    ensures Criticals(CheckMessages(checks)) == |Stretches(checks)|
  {
    if checks != [] {
      OneCriticalPerStretch(checks[..|checks| - 1]);
      StretchesGrow(checks);
      CriticalsTold(CheckMessages(checks[..|checks| - 1]), Down(checks[..|checks| - 1]), Down(checks));
    }
  }

  /** A reading at the limit with none well below it since. */
  predicate HighSince(readings: seq<int>, limit: int, i: nat) {
    i < |readings| && readings[i] >= limit && forall j | i < j < |readings| :: readings[j] >= limit - 5
  }

  lemma {:induction false} FullIff(readings: seq<int>, limit: int)
    ensures Full(readings, limit) <==> exists i: nat :: HighSince(readings, limit, i)
  {
    if readings != [] {
      var n := |readings| - 1;
      FullIff(readings[..n], limit);
      if readings[n] >= limit {
        assert HighSince(readings, limit, n);
      } else if Full(readings, limit) {
        var i: nat :| HighSince(readings[..n], limit, i);
        assert HighSince(readings, limit, i);
      } else if i: nat :| HighSince(readings, limit, i) {
        assert readings[n] >= limit - 5 && readings[..n][i] == readings[i];
        assert HighSince(readings[..n], limit, i);
      }
    }
  }

  /** The reading after which a critical message is sent. */
  predicate Alarms(readings: seq<int>, limit: int, i: nat) {
    i < |readings| && Full(readings[..i + 1], limit) && !Full(readings[..i], limit)
  }

  /** Between two critical messages the disk was seen more than five points below the limit. */
  lemma HysteresisHolds(readings: seq<int>, limit: int, i: nat, k: nat)
    requires i < k && Alarms(readings, limit, i) && Alarms(readings, limit, k)
    ensures exists j | i < j < k :: readings[j] < limit - 5
  {
    if forall j | i < j < k :: readings[j] >= limit - 5 {
      assert readings[..i + 1][..i] == readings[..i] && readings[..i + 1][i] == readings[i];
      assert readings[i] >= limit;
      assert HighSince(readings[..k], limit, i);
      FullIff(readings[..k], limit);
      assert false;
    }
  }

  // The watcher

  /** One key's part of a record of all keys. */
  function Of<T>(all: seq<(string, T)>, key: string): seq<T> {
    if all == [] then []
    else if all[|all| - 1].0 == key then Of(all[..|all| - 1], key) + [all[|all| - 1].1]
    else Of(all[..|all| - 1], key)
  }

  lemma OfOneMore<T>(all: seq<(string, T)>, key: string, one: (string, T))
    ensures Of(all + [one], key) == if one.0 == key then Of(all, key) + [one.1] else Of(all, key)
  {
    assert (all + [one])[..|all|] == all;
  }

  /** Keys of conditions with a limit; the others are of things checked up or down. */
  predicate IsGauge(key: string) {
    key == "disk" || key == "disk:images" || "redis-memory:" <= key
  }

  const REDIS_WARN_PERCENT: int := 90

  /** The limit a reading is held against; the disks' is a setting. */
  function LimitOf(disk: int, key: string): int {
    if "redis-memory:" <= key then REDIS_WARN_PERCENT else disk
  }

  /** What a watcher holds and has sent, beside everything it saw. */
  datatype Board = Board(
    firing: set<string>,
    strikes: map<string, nat>,
    sent: seq<(string, Level)>,
    checks: seq<(string, bool)>,     // every check, true when it failed
    readings: seq<(string, int)>,
    diskLimit: int)

  function StrikesOf(strikes: map<string, nat>, key: string): nat {
    if key in strikes then strikes[key] else 0
  }

  /** A key's alert is on, and its messages were sent, exactly as its history asks. */
  predicate KeyOk(b: Board, key: string) {
    if IsGauge(key) then
      && (key in b.firing <==> Full(Of(b.readings, key), LimitOf(b.diskLimit, key)))
      && Of(b.sent, key) == GaugeMessages(Of(b.readings, key), LimitOf(b.diskLimit, key))
    else
      && (key in b.firing <==> Down(Of(b.checks, key)))
      && StrikesOf(b.strikes, key) == Strikes(Of(b.checks, key))
      && Of(b.sent, key) == CheckMessages(Of(b.checks, key))
  }

  ghost predicate Consistent(b: Board) {
    forall key: string :: KeyOk(b, key)
  }

  function Fired(b: Board, key: string): Board {
    if key in b.firing then b else b.(firing := b.firing + {key}, sent := b.sent + [(key, Critical)])
  }

  function Ended(b: Board, key: string): Board {
    if key in b.firing then b.(firing := b.firing - {key}, sent := b.sent + [(key, Resolved)]) else b
  }

  function AfterCheck(b: Board, key: string, failed: bool): Board {
    var seen := b.(checks := b.checks + [(key, failed)]);
    if !failed then Ended(seen.(strikes := map other | other in b.strikes && other != key :: b.strikes[other]), key)
    else
      var strikes := StrikesOf(b.strikes, key) + 1;
      var struck := seen.(strikes := b.strikes[key := strikes]);
      if strikes >= STRIKES then Fired(struck, key) else struck
  }

  function AfterReading(b: Board, key: string, percent: int): Board {
    var seen := b.(readings := b.readings + [(key, percent)]);
    if percent >= LimitOf(b.diskLimit, key) then Fired(seen, key)
    else if percent < LimitOf(b.diskLimit, key) - 5 then Ended(seen, key)
    else seen
  }

  lemma CheckKeepsOwn(b: Board, key: string, failed: bool)
    requires !IsGauge(key) && KeyOk(b, key)
    ensures KeyOk(AfterCheck(b, key, failed), key)
  {
    OneCheckMore(Of(b.checks, key), failed);
    OfOneMore(b.checks, key, (key, failed));
    OfOneMore(b.sent, key, (key, Critical));
    OfOneMore(b.sent, key, (key, Resolved));
  }

  lemma CheckKeepsOther(b: Board, key: string, failed: bool, other: string)
    requires !IsGauge(key) && KeyOk(b, other) && other != key
    ensures KeyOk(AfterCheck(b, key, failed), other)
  {
    OfOneMore(b.checks, other, (key, failed));
    OfOneMore(b.sent, other, (key, Critical));
    OfOneMore(b.sent, other, (key, Resolved));
  }

  lemma ReadingKeepsOwn(b: Board, key: string, percent: int)
    requires IsGauge(key) && KeyOk(b, key)
    ensures KeyOk(AfterReading(b, key, percent), key)
  {
    OneReadingMore(Of(b.readings, key), percent, LimitOf(b.diskLimit, key));
    OfOneMore(b.readings, key, (key, percent));
    hide Full, GaugeMessages, IsGauge, LimitOf;
    OfOneMore(b.sent, key, (key, Critical));
    OfOneMore(b.sent, key, (key, Resolved));
  }

  lemma ReadingKeepsOther(b: Board, key: string, percent: int, other: string)
    requires IsGauge(key) && KeyOk(b, other) && other != key
    ensures KeyOk(AfterReading(b, key, percent), other)
  {
    OfOneMore(b.readings, other, (key, percent));
    OfOneMore(b.sent, other, (key, Critical));
    OfOneMore(b.sent, other, (key, Resolved));
  }

  /** One check or reading keeps every key's alert and messages as its own history asks. */
  lemma StepKeepsConsistent(b: Board, key: string, failed: bool, percent: int)
    requires Consistent(b)
    ensures !IsGauge(key) ==> Consistent(AfterCheck(b, key, failed))
    ensures IsGauge(key) ==> Consistent(AfterReading(b, key, percent))
  {
    if IsGauge(key) {
      forall other: string ensures KeyOk(AfterReading(b, key, percent), other) {
        assert KeyOk(b, other);
        if other == key { ReadingKeepsOwn(b, key, percent); } else { ReadingKeepsOther(b, key, percent, other); }
      }
    } else {
      forall other: string ensures KeyOk(AfterCheck(b, key, failed), other) {
        assert KeyOk(b, other);
        if other == key { CheckKeepsOwn(b, key, failed); } else { CheckKeepsOther(b, key, failed, other); }
      }
    }
  }

  /** Something seen about one key: a check, or a reading of what has a limit. */
  datatype Event = Checked(key: string, failed: bool) | Measured(key: string, percent: int)

  predicate Proper(e: Event) {
    e.Measured? == IsGauge(e.key)
  }

  function AfterEvent(b: Board, e: Event): Board {
    match e
    case Checked(key, failed) => AfterCheck(b, key, failed)
    case Measured(key, percent) => AfterReading(b, key, percent)
  }

  function NewBoard(diskLimit: int): Board {
    Board({}, map[], [], [], [], diskLimit)
  }

  /** What a watcher holds and has sent after some events. */
  function Watched(diskLimit: int, events: seq<Event>): Board {
    if events == [] then NewBoard(diskLimit)
    else AfterEvent(Watched(diskLimit, events[..|events| - 1]), events[|events| - 1])
  }

  function ChecksOf(events: seq<Event>, key: string): seq<bool> {
    if events == [] then []
    else
      var e := events[|events| - 1];
      if e.Checked? && e.key == key then ChecksOf(events[..|events| - 1], key) + [e.failed]
      else ChecksOf(events[..|events| - 1], key)
  }

  function ReadingsOf(events: seq<Event>, key: string): seq<int> {
    if events == [] then []
    else
      var e := events[|events| - 1];
      if e.Measured? && e.key == key then ReadingsOf(events[..|events| - 1], key) + [e.percent]
      else ReadingsOf(events[..|events| - 1], key)
  }

  lemma EventIsSeen(b: Board, e: Event, key: string)
    ensures AfterEvent(b, e).diskLimit == b.diskLimit
    ensures Of(AfterEvent(b, e).checks, key) ==
            if e.Checked? && e.key == key then Of(b.checks, key) + [e.failed] else Of(b.checks, key)
    ensures Of(AfterEvent(b, e).readings, key) ==
            if e.Measured? && e.key == key then Of(b.readings, key) + [e.percent] else Of(b.readings, key)
  {
    match e
    case Checked(k, failed) => OfOneMore(b.checks, key, (k, failed));
    case Measured(k, percent) => OfOneMore(b.readings, key, (k, percent));
  }

  lemma {:induction false} HistoryIsKept(diskLimit: int, events: seq<Event>, key: string)
    requires forall e | e in events :: Proper(e)
    ensures var b := Watched(diskLimit, events);
            && b.diskLimit == diskLimit && Consistent(b)
            && Of(b.checks, key) == ChecksOf(events, key) && Of(b.readings, key) == ReadingsOf(events, key)
  {
    if events == [] {
      StartsConsistent(diskLimit);
    } else {
      var n := |events| - 1;
      var e, before := events[n], Watched(diskLimit, events[..n]);
      HistoryIsKept(diskLimit, events[..n], key);
      EventIsSeen(before, e, key);
      assert e in events && Proper(e);
      if e.Checked? {
        StepKeepsConsistent(before, e.key, e.failed, 0);
      } else {
        StepKeepsConsistent(before, e.key, false, e.percent);
      }
      hide Consistent, AfterCheck, AfterReading, Of, IsGauge;
    }
  }

  lemma StartsConsistent(diskLimit: int)
    ensures Consistent(NewBoard(diskLimit))
  {
  }

  /** Over every history of checks and readings of any keys: a thing's alert is on exactly while its
      own last two checks failed, a disk's exactly while it is full, and the messages sent about
      each alternate, with one critical for each stretch of two or more failed checks. */
  lemma StaysConsistent(diskLimit: int, events: seq<Event>, key: string)
    requires forall e | e in events :: Proper(e)
    ensures var b := Watched(diskLimit, events);
            && (key in b.firing <==>
                  if IsGauge(key) then Full(ReadingsOf(events, key), LimitOf(diskLimit, key)) else Down(ChecksOf(events, key)))
            && Of(b.sent, key) == (if IsGauge(key) then GaugeMessages(ReadingsOf(events, key), LimitOf(diskLimit, key))
                                   else CheckMessages(ChecksOf(events, key)))
            && Alternates(Of(b.sent, key))
            && (!IsGauge(key) ==> Criticals(Of(b.sent, key)) == |Stretches(ChecksOf(events, key))|)
  {
    HistoryIsKept(diskLimit, events, key);
    assert KeyOk(Watched(diskLimit, events), key);
    ChecksAlternate(ChecksOf(events, key));
    OneCriticalPerStretch(ChecksOf(events, key));
    GaugesAlternate(ReadingsOf(events, key), LimitOf(diskLimit, key));
    hide Watched, Consistent, Full, GaugeMessages, CheckMessages, Alternates, Criticals, Stretches, ChecksOf, ReadingsOf, Of, IsGauge, LimitOf;
  }

  class Alerts {
    var firing: map<string, string>
    var sent: seq<(string, Level)>

    constructor ()
      ensures firing == map[] && sent == []
    {
      firing := map[];
      sent := [];
    }

    /** Starts a condition, and says so unless it was on already. */
    method Fire(key: string, title: string) returns (told: bool)
      modifies this
      ensures told <==> key !in old(firing)
      ensures firing.Keys == old(firing).Keys + {key} && sent == if told then old(sent) + [(key, Critical)] else old(sent)
    {
      if key in firing {
        return false;
      }
      firing := firing[key := title];
      sent := sent + [(key, Critical)];
      return true;
    }

    /** Ends a condition, and says so if it was on. */
    method Resolve(key: string) returns (told: bool)
      modifies this
      ensures told <==> key in old(firing)
      ensures firing.Keys == old(firing).Keys - {key} && sent == if told then old(sent) + [(key, Resolved)] else old(sent)
    {
      if key !in firing {
        return false;
      }
      firing := map other | other in firing && other != key :: firing[other];
      sent := sent + [(key, Resolved)];
      return true;
    }
  }

  class Monitor {
    const alerts: Alerts
    const diskLimit: int
    var strikes: map<string, nat>
    ghost var checks: seq<(string, bool)>
    ghost var readings: seq<(string, int)>

    ghost function Now(): Board
      reads this, alerts
    {
      Board(alerts.firing.Keys, strikes, alerts.sent, checks, readings, diskLimit)
    }

    constructor (alerts: Alerts, diskLimit: int)
      requires alerts.firing == map[] && alerts.sent == []
      ensures this.alerts == alerts && this.diskLimit == diskLimit && checks == [] && readings == [] && Consistent(Now())
    {
      this.alerts := alerts;
      this.diskLimit := diskLimit;
      strikes := map[];
      checks := [];
      readings := [];
    }

    /** One check of a site, worker or server: two failures in a row start its alert. */
    method Record(key: string, problem: Option<string>, title: string) returns (down: nat)
      requires Consistent(Now()) && !IsGauge(key)
      modifies this, alerts
      ensures Consistent(Now()) && Now() == AfterCheck(old(Now()), key, problem.Some?)
      ensures down == if problem.Some? then 1 else 0
    {
      StepKeepsConsistent(Now(), key, problem.Some?, 0);
      checks := checks + [(key, problem.Some?)];
      if problem.None? {
        strikes := map other | other in strikes && other != key :: strikes[other];
        var told := alerts.Resolve(key);
        assert Now().firing == AfterCheck(old(Now()), key, false).firing;
        return 0;
      }
      strikes := strikes[key := (if key in strikes then strikes[key] else 0) + 1];
      if strikes[key] >= STRIKES {
        var told := alerts.Fire(key, title);
      }
      assert Now().firing == AfterCheck(old(Now()), key, true).firing;
      return 1;
    }

    /** One reading of a disk or a memory: at the limit its alert starts, and below it by more
        than five points it ends. */
    method Measure(key: string, percent: Option<int>, title: string)
      requires Consistent(Now()) && IsGauge(key)
      modifies this`readings, alerts
      ensures Consistent(Now())
      ensures Now() == if percent.Some? then AfterReading(old(Now()), key, percent.value) else old(Now())
    {
      if percent.None? {
        return;
      }
      StepKeepsConsistent(Now(), key, false, percent.value);
      readings := readings + [(key, percent.value)];
      var limit := LimitOf(diskLimit, key);
      if percent.value >= limit {
        var told := alerts.Fire(key, title);
      } else if percent.value < limit - 5 {
        var told := alerts.Resolve(key);
      }
      assert Now().firing == AfterReading(old(Now()), key, percent.value).firing;
    }
  }

  lemma OneReadingMore(readings: seq<int>, percent: int, limit: int)
    ensures Full(readings + [percent], limit) <==> percent >= limit || (percent >= limit - 5 && Full(readings, limit))
    ensures GaugeMessages(readings + [percent], limit) ==
            Told(GaugeMessages(readings, limit), Full(readings, limit), Full(readings + [percent], limit))
  {
    assert (readings + [percent])[..|readings|] == readings;
  }

  lemma OneCheckMore(checks: seq<bool>, failed: bool)
    ensures (checks + [failed])[..|checks|] == checks
    ensures Strikes(checks + [failed]) == if failed then Strikes(checks) + 1 else 0
    ensures failed ==> (Strikes(checks) + 1 >= STRIKES <==> Down(checks + [failed]))
    ensures Down(checks) ==> Strikes(checks) >= STRIKES
  {
    assert (checks + [failed])[..|checks|] == checks;
    if |checks| >= 2 {
      var n := |checks|;
      assert checks[..n - 1][..n - 2] == checks[..n - 2];
    }
  }

  // Limits

  /** Some reading was this high, and none this low came after it. */
  ghost predicate HighAfterLow(readings: seq<int>, high: int, low: int) {
    exists i: nat :: i < |readings| && readings[i] >= high && forall j | i < j < |readings| :: readings[j] >= low
  }

  lemma FullIsHigh(readings: seq<int>, limit: int)
    ensures Full(readings, limit) <==> HighAfterLow(readings, limit, limit - 5)
  {
    FullIff(readings, limit);
    if i: nat :| HighSince(readings, limit, i) {
      assert readings[i] >= limit;
    }
    if i: nat :| i < |readings| && readings[i] >= limit && forall j | i < j < |readings| :: readings[j] >= limit - 5 {
      assert HighSince(readings, limit, i);
    }
  }

  /** Over every history, the alert about a Redis is on exactly while it was seen 90 percent full and
      not below 85 since, whatever limit the disks have; a disk's goes by the limit set for disks. */
  lemma LimitsAre(diskLimit: int, events: seq<Event>, project: string, key: string)
    requires forall e | e in events :: Proper(e)
    ensures var redis := "redis-memory:" + project;
            redis in Watched(diskLimit, events).firing <==> HighAfterLow(ReadingsOf(events, redis), 90, 85)
    ensures key == "disk" || key == "disk:images" ==>
              (key in Watched(diskLimit, events).firing <==> HighAfterLow(ReadingsOf(events, key), diskLimit, diskLimit - 5))
  {
    var redis := "redis-memory:" + project;
    assert "redis-memory:" <= redis;
    assert key == "disk" || key == "disk:images" ==> !("redis-memory:" <= key);
    StaysConsistent(diskLimit, events, redis);
    FullIsHigh(ReadingsOf(events, redis), 90);
    StaysConsistent(diskLimit, events, key);
    FullIsHigh(ReadingsOf(events, key), diskLimit);
    hide Watched, Full, GaugeMessages, CheckMessages, Alternates, Criticals, Stretches, HighAfterLow, ChecksOf, ReadingsOf;
  }

  /** Over every history, the alert about a site, a worker or a Redis that should answer is on exactly
      while its own last two checks failed. */
  lemma ChecksAre(diskLimit: int, events: seq<Event>, kind: string, name: string)
    requires forall e | e in events :: Proper(e)
    requires kind == "site:" || kind == "worker:" || kind == "redis:"
    ensures var checks := ChecksOf(events, kind + name);
            kind + name in Watched(diskLimit, events).firing <==>
            |checks| >= 2 && checks[|checks| - 1] && checks[|checks| - 2]
  {
    var key := kind + name;
    assert key[0] == kind[0] && key[|kind| - 1] == ':' && |kind| <= 7;
    assert "redis-memory:"[|kind| - 1] != ':' && !("redis-memory:" <= key);
    assert key != "disk" && key != "disk:images";
    StaysConsistent(diskLimit, events, key);
    hide Watched, Full, GaugeMessages, CheckMessages, Alternates, Criticals, Stretches, ChecksOf, ReadingsOf;
  }
}
