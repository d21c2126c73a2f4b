/**
 The link monitor of app.py: the packet-loss measurement of one link, the
 per-link outage state machine with its delayed alert, and the periodic report
 of confirmed outages.

 The monitor keeps three pieces of state: whether each link was online at its
 last check, when each link that is down went down, and the persisted table of
 outages that have lasted long enough to be announced. A check moves that state
 forward and emits effects (a beep, a rewrite of the persisted table, a chat
 message) instead of performing them.
 */
module LinkMonitor {
  import opened Wrappers
  import PyDict

  /** An outage is announced once it has lasted fifteen minutes. */
  const AlertDelaySeconds: int := 15 * 60

  /** A link is online while its measured loss percentage stays below this. */
  const OnlineLossBelow: real := 30.0

  /** The number of pings a check sends when the caller does not say. */
  const DefaultAttempts: nat := 3

  // ---------------------------------------------------------------------------
  // Loss measurement
  // ---------------------------------------------------------------------------

  /** How many of the pings were answered. */
  function Successes(outcomes: seq<bool>): (n: nat)
    ensures n <= |outcomes|
    ensures n == |outcomes| <==> forall i | 0 <= i < |outcomes| :: outcomes[i]
    ensures n == 0 <==> forall i | 0 <= i < |outcomes| :: !outcomes[i]
  {
    if |outcomes| == 0 then 0
    else
      var last := |outcomes| - 1;
      assert forall i | 0 <= i < last :: outcomes[..last][i] == outcomes[i];
      Successes(outcomes[..last]) + (if outcomes[last] then 1 else 0)
  }

  /** `100 * (1 - s / t)`: the loss percentage when `s` of `t` pings were answered. */
  function LossOf(s: nat, t: nat): real
    requires 0 < t
  {
    100.0 * (1.0 - s as real / t as real)
  }

  /** The loss percentage for these ping outcomes, in exact arithmetic. */
  function LossPercent(outcomes: seq<bool>): real
    requires |outcomes| > 0
  {
    LossOf(Successes(outcomes), |outcomes|)
  }

  /** The loss percentage in terms of whole pings, for `s <= t` answered of `t`. */
  lemma LossArithmetic(s: nat, t: nat)
    requires 0 < t && s <= t
    ensures 0.0 <= LossOf(s, t) <= 100.0
    ensures LossOf(s, t) == 0.0 <==> s == t
    ensures LossOf(s, t) == 100.0 <==> s == 0
    ensures LossOf(s, t) < OnlineLossBelow <==> 100 * (t - s) < 30 * t
  {
    var n := t as real;
    LossScaled(s, t);
    Compare(LossOf(s, t), OnlineLossBelow, n, 100 * (t - s), 30 * t);
    Compare(LossOf(s, t), 0.0, n, 100 * (t - s), 0);
    Compare(LossOf(s, t), 100.0, n, 100 * (t - s), 100 * t);
  }

  /** Multiplying the loss by the number of pings gives 100 times the pings lost. */
  lemma LossScaled(s: nat, t: nat)
    requires 0 < t
    ensures LossOf(s, t) * t as real == (100 * (t - s)) as real
  {
    var n := t as real;
    var q := s as real / n;
    assert q * n == s as real;
    calc {
      LossOf(s, t) * n;
      100.0 * (1.0 - q) * n;
      100.0 * n - 100.0 * (q * n);
      100.0 * n - 100.0 * s as real;
    }
  }

  /** Two reals compare as their positive multiples, here whole numbers, do. */
  lemma Compare(x: real, c: real, n: real, xn: int, cn: int)
    requires n > 0.0
    requires x * n == xn as real && c * n == cn as real
    ensures x < c <==> xn < cn
    ensures c < x <==> cn < xn
    ensures x == c <==> xn == cn
  {
    if x < c {
      ProductPositive(c - x, n);
      assert (c - x) * n == c * n - x * n;
    } else if x > c {
      ProductPositive(x - c, n);
      assert (x - c) * n == x * n - c * n;
    }
  }

  lemma ProductPositive(a: real, b: real)
    requires a > 0.0 && b > 0.0
    ensures a * b > 0.0
  {
  }

  /**
   Pings the host once per entry of `outcomes` (the answers are given, not
   observed) and reports the loss percentage.
   */
  method PingMultiplo(outcomes: seq<bool>) returns (loss: real)
    requires |outcomes| > 0
    ensures loss == LossPercent(outcomes)
    ensures 0.0 <= loss <= 100.0
    ensures loss == 0.0 <==> forall i | 0 <= i < |outcomes| :: outcomes[i]
    ensures loss == 100.0 <==> forall i | 0 <= i < |outcomes| :: !outcomes[i]
  {
    var answered := 0;
    var i := 0;
    while i < |outcomes|
      invariant 0 <= i <= |outcomes|
      invariant answered == Successes(outcomes[..i])
    {
      assert outcomes[..i + 1][..i] == outcomes[..i];
      if outcomes[i] {
        answered := answered + 1;
      }
      i := i + 1;
    }
    assert outcomes[..i] == outcomes;
    LossArithmetic(answered, |outcomes|);
    loss := 100.0 * (1.0 - answered as real / |outcomes| as real);
    assert loss == LossOf(answered, |outcomes|);
  }

  /** A link is online exactly when fewer than 30% of its pings went unanswered. */
  lemma OnlineIffFewLost(outcomes: seq<bool>)
    requires |outcomes| > 0
    ensures LossPercent(outcomes) < OnlineLossBelow
        <==> 100 * (|outcomes| - Successes(outcomes)) < 30 * |outcomes|
  {
    LossArithmetic(Successes(outcomes), |outcomes|);
  }

  /** With the default three pings, one lost ping already makes a link offline. */
  lemma DefaultOnlineIffAllAnswered(outcomes: seq<bool>)
    requires |outcomes| == DefaultAttempts
    ensures LossPercent(outcomes) < OnlineLossBelow
        <==> forall i | 0 <= i < |outcomes| :: outcomes[i]
  {
    OnlineIffFewLost(outcomes);
  }

  // ---------------------------------------------------------------------------
  // Monitor state
  // ---------------------------------------------------------------------------

  /** A confirmed outage: when the link went down, in seconds. */
  datatype Outage = Outage(since: int)

  /** Outages of one unit, by provider, in the order they were confirmed. */
  type ProviderOutages = PyDict.Dict<string, Outage>

  /** The persisted outage table: unit, then provider. */
  type StatusLinks = PyDict.Dict<string, ProviderOutages>

  datatype MonitorState = MonitorState(
    online: map<string, bool>,      // last known state of each link, by link key
    offlineSince: map<string, int>, // when each link that is down went down
    statusLinks: StatusLinks)       // outages already announced

  /** The state right after start-up: nothing checked yet, the table as loaded. */
  function Start(persisted: StatusLinks): (s: MonitorState)
    ensures Consistent(s)
  {
    MonitorState(map[], map[], persisted)
  }

  /**
   The key of a link in the per-link maps: unit and provider joined by a dash.
   Two different pairs can share a key when a name itself contains a dash.
   */
  function LinkKey(unit: string, provider: string): (k: string)
    ensures |k| == |unit| + 1 + |provider|
    ensures k[..|unit|] == unit && k[|unit|] == '-' && k[|unit| + 1..] == provider
  {
    unit + "-" + provider
  }

  /** Dashes inside names make two different links share a key. */
  lemma LinkKeysCanCollide()
    ensures ("a-b", "c") != ("a", "b-c") && LinkKey("a-b", "c") == LinkKey("a", "b-c")
  {
  }

  /** A link is marked offline exactly when its outage start is known. */
  predicate Consistent(s: MonitorState) {
    && (forall k <- s.offlineSince.Keys :: k in s.online)
    && (forall k <- s.online.Keys :: !s.online[k] <==> k in s.offlineSince)
  }

  /** The outage of this link has been announced and not yet cleared. */
  predicate Recorded(sl: StatusLinks, unit: string, provider: string) {
    unit in sl.entries && provider in sl.entries[unit].entries
  }

  /** No unit of the table is left with an empty set of outages. */
  predicate NoEmptyUnit(sl: StatusLinks) {
    forall u <- sl.entries.Keys :: !PyDict.IsEmpty(sl.entries[u])
  }

  datatype Effect =
    | Beep                           // local audible alarm
    | Persist(snapshot: StatusLinks) // rewrite of the status file
    | Notify(text: string)           // chat message to the monitoring group

  function OfflineAlert(unit: string, provider: string): string {
    "⛔ *" + unit + "* (" + provider + ") está offline."
  }

  function RecoveryNotice(unit: string, provider: string): string {
    "✅ *" + unit + "* (" + provider + ") voltou."
  }

  /** The chat messages among some effects, in order. */
  function Messages(effects: seq<Effect>): (texts: seq<string>)
    ensures |texts| <= |effects|
    ensures forall t <- texts :: Notify(t) in effects
    ensures forall e <- effects :: e.Notify? ==> e.text in texts
  {
    if |effects| == 0 then []
    else
      (if effects[0].Notify? then [effects[0].text] else []) + Messages(effects[1..])
  }

  /** The result of checking one link. */
  datatype Check = Check(state: MonitorState, online: bool, effects: seq<Effect>)

  /** The check looked up the outage start of a link that has none. */
  datatype Fault = MissingOutageStart(key: string)

  /** Adds an outage under `unit`, creating the unit's entry if needed. */
  function RecordOutage(sl: StatusLinks, unit: string, provider: string, since: int): (sl': StatusLinks)
    ensures Recorded(sl', unit, provider)
    ensures sl'.entries[unit].entries[provider] == Outage(since)
    ensures sl'.entries.Keys == sl.entries.Keys + {unit}
    ensures forall u <- sl.entries.Keys :: u != unit ==> sl'.entries[u] == sl.entries[u]
    ensures unit in sl.entries ==>
      sl'.entries[unit].entries == sl.entries[unit].entries[provider := Outage(since)]
    ensures NoEmptyUnit(sl) ==> NoEmptyUnit(sl')
  {
    var providers: ProviderOutages := if unit in sl.entries then sl.entries[unit] else PyDict.Empty();
    var updated := PyDict.Put(providers, provider, Outage(since));
    assert provider in updated.entries;
    PutKeepsNoEmptyUnit(sl, unit, updated);
    PyDict.Put(sl, unit, updated)
  }

  /** Drops an announced outage, and its unit with it once the unit has none left. */
  function ClearOutage(sl: StatusLinks, unit: string, provider: string): (sl': StatusLinks)
    requires Recorded(sl, unit, provider)
    ensures !Recorded(sl', unit, provider)
    ensures unit in sl'.entries <==> sl.entries[unit].entries.Keys != {provider}
    ensures unit in sl'.entries ==>
      sl'.entries[unit].entries == sl.entries[unit].entries - {provider}
    ensures sl'.entries.Keys <= sl.entries.Keys
    ensures forall u <- sl.entries.Keys :: u != unit ==> u in sl'.entries && sl'.entries[u] == sl.entries[u]
    ensures NoEmptyUnit(sl) ==> NoEmptyUnit(sl')
  {
    var providers := PyDict.Remove(sl.entries[unit], provider);
    assert providers.entries == sl.entries[unit].entries - {provider};
    assert PyDict.IsEmpty(providers) <==> sl.entries[unit].entries.Keys == {provider};
    if PyDict.IsEmpty(providers) then
      RemoveKeepsNoEmptyUnit(sl, unit);
      PyDict.Remove(sl, unit)
    else
      PutKeepsNoEmptyUnit(sl, unit, providers);
      PyDict.Put(sl, unit, providers)
  }

  lemma PutKeepsNoEmptyUnit(sl: StatusLinks, unit: string, providers: ProviderOutages)
    ensures NoEmptyUnit(sl) && !PyDict.IsEmpty(providers) ==> NoEmptyUnit(PyDict.Put(sl, unit, providers))
  {
  }

  lemma RemoveKeepsNoEmptyUnit(sl: StatusLinks, unit: string)
    ensures NoEmptyUnit(sl) ==> NoEmptyUnit(PyDict.Remove(sl, unit))
  {
  }

  /**
   One check of the link `provider` of `unit`, whose pings lost `loss` percent,
   at time `now`. The result says whether the link is online now; the only way
   to fail is a link marked offline whose outage start is unknown.
   */
  function CheckLink(s: MonitorState, unit: string, provider: string, loss: real, now: int): (r: Result<Check, Fault>)
    ensures var key := LinkKey(unit, provider);
      r.Failure? <==> key in s.online && !s.online[key] && loss >= OnlineLossBelow && key !in s.offlineSince
    ensures r.Success? ==> r.value.online == (loss < OnlineLossBelow)
    ensures r.Success? ==> var key := LinkKey(unit, provider);
      key in r.value.state.online && r.value.state.online[key] == r.value.online
    ensures r.Success? ==> var key := LinkKey(unit, provider);
      && (forall k <- r.value.state.online.Keys :: k != key ==> k in s.online && r.value.state.online[k] == s.online[k])
      && (forall k <- s.online.Keys :: k in r.value.state.online)
      && (forall k <- r.value.state.offlineSince.Keys :: k != key ==> k in s.offlineSince && r.value.state.offlineSince[k] == s.offlineSince[k])
      && (forall k <- s.offlineSince.Keys :: k != key ==> k in r.value.state.offlineSince)
    ensures r.Success? ==>
      forall u <- s.statusLinks.entries.Keys :: u != unit ==>
        u in r.value.state.statusLinks.entries && r.value.state.statusLinks.entries[u] == s.statusLinks.entries[u]
    ensures r.Success? ==>
      forall u <- r.value.state.statusLinks.entries.Keys :: u != unit ==> u in s.statusLinks.entries
  {
    var key := LinkKey(unit, provider);
    var online := if key in s.online then s.online else s.online[key := true];
    var onlineNow := loss < OnlineLossBelow;
    var onlineBefore := online[key];
    if onlineNow && onlineBefore then
      Success(Check(MonitorState(online, s.offlineSince - {key}, s.statusLinks), true, []))
    else if !onlineNow && onlineBefore then
      Success(Check(MonitorState(online[key := false], s.offlineSince[key := now], s.statusLinks), false, [Beep]))
    else if !onlineNow then
      if key !in s.offlineSince then Failure(MissingOutageStart(key))
      else
        var start := s.offlineSince[key];
        if now - start >= AlertDelaySeconds && !Recorded(s.statusLinks, unit, provider) then
          var sl := RecordOutage(s.statusLinks, unit, provider, start);
          Success(Check(s.(statusLinks := sl), false, [Persist(sl), Notify(OfflineAlert(unit, provider))]))
        else
          Success(Check(s, false, []))
    else
      var back := MonitorState(online[key := true], s.offlineSince - {key}, s.statusLinks);
      if Recorded(s.statusLinks, unit, provider) then
        var sl := ClearOutage(s.statusLinks, unit, provider);
        Success(Check(back.(statusLinks := sl), true, [Notify(RecoveryNotice(unit, provider)), Persist(sl)]))
      else
        Success(Check(back, true, []))
  }

  // ---------------------------------------------------------------------------
  // Properties of one check
  // ---------------------------------------------------------------------------

  /** A link checked for the first time is treated as having been online. */
  lemma FirstCheckCountsAsOnline(s: MonitorState, unit: string, provider: string, loss: real, now: int)
    requires LinkKey(unit, provider) !in s.online
    ensures CheckLink(s, unit, provider, loss, now)
         == CheckLink(s.(online := s.online[LinkKey(unit, provider) := true]), unit, provider, loss, now)
  {
  }

  /** Every check from a consistent state succeeds and leaves the state consistent. */
  lemma CheckKeepsConsistent(s: MonitorState, unit: string, provider: string, loss: real, now: int)
    requires Consistent(s)
    ensures CheckLink(s, unit, provider, loss, now).Success?
    ensures Consistent(CheckLink(s, unit, provider, loss, now).value.state)
  {
  }

  /** A check never leaves an empty unit behind in the outage table. */
  lemma CheckKeepsNoEmptyUnit(s: MonitorState, unit: string, provider: string, loss: real, now: int)
    requires NoEmptyUnit(s.statusLinks)
    requires CheckLink(s, unit, provider, loss, now).Success?
    ensures NoEmptyUnit(CheckLink(s, unit, provider, loss, now).value.state.statusLinks)
  {
  }

  /**
   A link that goes down has its start time taken and its flag cleared; nothing
   is announced yet and the outage table is left alone. Only the beep sounds.
   */
  lemma GoingDown(s: MonitorState, unit: string, provider: string, loss: real, now: int)
    requires var key := LinkKey(unit, provider); key !in s.online || s.online[key]
    requires loss >= OnlineLossBelow
    ensures var r := CheckLink(s, unit, provider, loss, now);
      && r.Success?
      && r.value.state.offlineSince[LinkKey(unit, provider)] == now
      && !r.value.state.online[LinkKey(unit, provider)]
      && r.value.state.statusLinks == s.statusLinks
      && r.value.effects == [Beep]
      && Messages(r.value.effects) == []
  {
  }

  /**
   A link that stays down is announced exactly when it has been down for the
   alert delay and its outage is not in the table yet; the announcement records
   the outage with its original start time. Otherwise nothing happens.
   */
  lemma StayingDown(s: MonitorState, unit: string, provider: string, loss: real, now: int)
    requires var key := LinkKey(unit, provider); key in s.online && !s.online[key] && key in s.offlineSince
    requires loss >= OnlineLossBelow
    ensures var r := CheckLink(s, unit, provider, loss, now);
      var start := s.offlineSince[LinkKey(unit, provider)];
      var due := now - start >= AlertDelaySeconds && !Recorded(s.statusLinks, unit, provider);
      && r.Success?
      && r.value.state.online == s.online
      && r.value.state.offlineSince == s.offlineSince
      && (Messages(r.value.effects) == if due then [OfflineAlert(unit, provider)] else [])
      && (due ==> r.value.state.statusLinks.entries[unit].entries[provider] == Outage(start))
      && (now - start >= AlertDelaySeconds ==> Recorded(r.value.state.statusLinks, unit, provider))
      && (!due ==> r.value.state == s)
  {
    var r := CheckLink(s, unit, provider, loss, now);
    var start := s.offlineSince[LinkKey(unit, provider)];
    if now - start >= AlertDelaySeconds && !Recorded(s.statusLinks, unit, provider) {
      assert r.value.effects == [Persist(r.value.state.statusLinks), Notify(OfflineAlert(unit, provider))];
      assert Messages(r.value.effects) == [] + Messages(r.value.effects[1..]);
    }
  }

  /**
   A link that comes back is marked online and forgets its start time. A
   recovery notice goes out exactly when its outage was announced; the outage
   leaves the table, its unit too once empty, and the unit's other outages stay.
   */
  lemma ComingBack(s: MonitorState, unit: string, provider: string, loss: real, now: int)
    requires var key := LinkKey(unit, provider); key in s.online && !s.online[key]
    requires loss < OnlineLossBelow
    ensures var r := CheckLink(s, unit, provider, loss, now);
      var key := LinkKey(unit, provider);
      var was := Recorded(s.statusLinks, unit, provider);
      && r.Success?
      && r.value.state.online == s.online[key := true]
      && r.value.state.offlineSince == s.offlineSince - {key}
      && (Messages(r.value.effects) == if was then [RecoveryNotice(unit, provider)] else [])
      && !Recorded(r.value.state.statusLinks, unit, provider)
      && (!was ==> r.value.state.statusLinks == s.statusLinks)
      && (was ==> (unit in r.value.state.statusLinks.entries
                   <==> s.statusLinks.entries[unit].entries.Keys != {provider}))
      && (was && unit in r.value.state.statusLinks.entries ==>
            r.value.state.statusLinks.entries[unit].entries == s.statusLinks.entries[unit].entries - {provider})
  {
    var r := CheckLink(s, unit, provider, loss, now);
    if Recorded(s.statusLinks, unit, provider) {
      assert Messages(r.value.effects) == [RecoveryNotice(unit, provider)] + Messages(r.value.effects[1..]);
    }
  }

  /** A link that stays up keeps its state; nothing is announced. */
  lemma StayingUp(s: MonitorState, unit: string, provider: string, loss: real, now: int)
    requires var key := LinkKey(unit, provider); key !in s.online || s.online[key]
    requires loss < OnlineLossBelow
    ensures var r := CheckLink(s, unit, provider, loss, now);
      && r.Success?
      && r.value.state.statusLinks == s.statusLinks
      && LinkKey(unit, provider) !in r.value.state.offlineSince
      && r.value.effects == []
  {
  }

  // ---------------------------------------------------------------------------
  // A sequence of checks of one link
  // ---------------------------------------------------------------------------

  /** One measurement: the loss percentage and the time it was taken. */
  datatype Sample = Sample(loss: real, now: int)

  /** Checks one link once per sample, collecting the effects in order. */
  function RunLink(s: MonitorState, unit: string, provider: string, samples: seq<Sample>)
    : (r: Result<(MonitorState, seq<Effect>), Fault>)
    ensures Consistent(s) ==> r.Success? && Consistent(r.value.0)
    ensures NoEmptyUnit(s.statusLinks) && r.Success? ==> NoEmptyUnit(r.value.0.statusLinks)
    decreases |samples|
  {
    if |samples| == 0 then Success((s, []))
    else
      CheckPreserves(s, unit, provider, samples[0].loss, samples[0].now);
      match CheckLink(s, unit, provider, samples[0].loss, samples[0].now)
      case Failure(f) => Failure(f)
      case Success(c) =>
        match RunLink(c.state, unit, provider, samples[1..])
        case Failure(f) => Failure(f)
        case Success(rest) => Success((rest.0, c.effects + rest.1))
  }

  /** The two invariants of a single check, stated for any starting state. */
  lemma CheckPreserves(s: MonitorState, unit: string, provider: string, loss: real, now: int)
    ensures Consistent(s) ==>
      CheckLink(s, unit, provider, loss, now).Success? && Consistent(CheckLink(s, unit, provider, loss, now).value.state)
    ensures NoEmptyUnit(s.statusLinks) && CheckLink(s, unit, provider, loss, now).Success? ==>
      NoEmptyUnit(CheckLink(s, unit, provider, loss, now).value.state.statusLinks)
  {
    if Consistent(s) {
      CheckKeepsConsistent(s, unit, provider, loss, now);
    }
    if NoEmptyUnit(s.statusLinks) && CheckLink(s, unit, provider, loss, now).Success? {
      CheckKeepsNoEmptyUnit(s, unit, provider, loss, now);
    }
  }

  /** How many of the messages announce the outage of this link. */
  function Alerts(texts: seq<string>, unit: string, provider: string): (n: nat)
    ensures n <= |texts|
  {
    if |texts| == 0 then 0
    else (if texts[0] == OfflineAlert(unit, provider) then 1 else 0) + Alerts(texts[1..], unit, provider)
  }

  lemma {:induction false} MessagesAppend(a: seq<Effect>, b: seq<Effect>)
    ensures Messages(a + b) == Messages(a) + Messages(b)
    decreases |a|
  {
    if |a| > 0 {
      assert (a + b)[1..] == a[1..] + b;
      MessagesAppend(a[1..], b);
    } else {
      assert a + b == b;
    }
  }

  lemma {:induction false} AlertsAppend(a: seq<string>, b: seq<string>, unit: string, provider: string)
    ensures Alerts(a + b, unit, provider) == Alerts(a, unit, provider) + Alerts(b, unit, provider)
    decreases |a|
  {
    if |a| > 0 {
      assert (a + b)[1..] == a[1..] + b;
      AlertsAppend(a[1..], b, unit, provider);
    } else {
      assert a + b == b;
    }
  }

  /**
   However long a link stays down, its outage is announced at most once, and
   not at all when it was already in the table.
   */
  lemma {:induction false} OneAlertPerOutage(s: MonitorState, unit: string, provider: string, samples: seq<Sample>)
    requires Consistent(s)
    requires forall i | 0 <= i < |samples| :: samples[i].loss >= OnlineLossBelow
    ensures RunLink(s, unit, provider, samples).Success?
    ensures Alerts(Messages(RunLink(s, unit, provider, samples).value.1), unit, provider)
         <= if Recorded(s.statusLinks, unit, provider) then 0 else 1
    decreases |samples|
  {
    if |samples| > 0 {
      var key := LinkKey(unit, provider);
      CheckKeepsConsistent(s, unit, provider, samples[0].loss, samples[0].now);
      var c := CheckLink(s, unit, provider, samples[0].loss, samples[0].now).value;
      OneAlertPerOutage(c.state, unit, provider, samples[1..]);
      var rest := RunLink(c.state, unit, provider, samples[1..]).value;
      MessagesAppend(c.effects, rest.1);
      AlertsAppend(Messages(c.effects), Messages(rest.1), unit, provider);
      if key in s.online && !s.online[key] {
        StayingDown(s, unit, provider, samples[0].loss, samples[0].now);
        var start := s.offlineSince[key];
        if samples[0].now - start >= AlertDelaySeconds && !Recorded(s.statusLinks, unit, provider) {
          assert Messages(c.effects) == [OfflineAlert(unit, provider)];
          assert Recorded(c.state.statusLinks, unit, provider);
        } else {
          assert Messages(c.effects) == [];
        }
      } else {
        GoingDown(s, unit, provider, samples[0].loss, samples[0].now);
      }
    }
  }

  // ---------------------------------------------------------------------------
  // Periodic report
  // ---------------------------------------------------------------------------

  /** Python's day of the week: Monday is 0, Sunday is 6. */
  type Weekday = d: int | 0 <= d <= 6

  const AllClear: string := "✅ Nenhum link fora do ar."

  const ReportHeader: string := "\U{1F4E1} *Relatório Automático*\n\n"

  /** One announced outage, as the report lists it. */
  datatype Entry = Entry(unit: string, provider: string, outage: Outage)

  /** The outages of `unit` for the given providers, in that order. */
  function ProviderEntries(unit: string, providers: seq<string>, outages: ProviderOutages): (es: seq<Entry>)
    requires forall p <- providers :: p in outages.entries
    ensures |es| == |providers|
    ensures forall i | 0 <= i < |es| :: es[i] == Entry(unit, providers[i], outages.entries[providers[i]])
  {
    seq(|providers|, i requires 0 <= i < |providers| => Entry(unit, providers[i], outages.entries[providers[i]]))
  }

  function UnitEntries(units: seq<string>, sl: StatusLinks): seq<Entry>
    requires forall u <- units :: u in sl.entries
  {
    if |units| == 0 then []
    else ProviderEntries(units[0], sl.entries[units[0]].order, sl.entries[units[0]]) + UnitEntries(units[1..], sl)
  }

  /** Every announced outage, unit by unit, in the table's iteration order. */
  function Entries(sl: StatusLinks): seq<Entry> {
    UnitEntries(sl.order, sl)
  }

  function ReportLine(e: Entry, format: int -> string): string {
    "- " + e.unit + " | " + e.provider + " | Desde: " + format(e.outage.since) + "\n"
  }

  function Concat(lines: seq<string>): string {
    if |lines| == 0 then "" else lines[0] + Concat(lines[1..])
  }

  /**
   The report sent at the scheduled times: nothing on weekends, an all-clear
   when no outage is announced, otherwise a header and one line per outage.
   `format` renders a start time as the status file stores it.
   */
  function Report(day: Weekday, sl: StatusLinks, format: int -> string): (r: Option<string>)
    ensures r.None? <==> day >= 5
    ensures r.Some? && PyDict.IsEmpty(sl) ==> r.value == AllClear
    ensures r.Some? && !PyDict.IsEmpty(sl) ==> ReportHeader <= r.value
  {
    if day >= 5 then None
    else if PyDict.IsEmpty(sl) then Some(AllClear)
    else
      var es := Entries(sl);
      Some(ReportHeader + Concat(seq(|es|, i requires 0 <= i < |es| => ReportLine(es[i], format))))
  }

  lemma {:induction false} UnitEntriesAreTheOutages(units: seq<string>, sl: StatusLinks)
    requires forall u <- units :: u in sl.entries
    ensures forall e :: e in UnitEntries(units, sl) <==>
      e.unit in units && Recorded(sl, e.unit, e.provider) && sl.entries[e.unit].entries[e.provider] == e.outage
    decreases |units|
  {
    if |units| > 0 {
      UnitEntriesAreTheOutages(units[1..], sl);
      var head := ProviderEntries(units[0], sl.entries[units[0]].order, sl.entries[units[0]]);
      assert UnitEntries(units, sl) == head + UnitEntries(units[1..], sl);
      forall e
        ensures e in head <==>
          e.unit == units[0] && Recorded(sl, e.unit, e.provider) && sl.entries[e.unit].entries[e.provider] == e.outage
      {
        if e.unit == units[0] && Recorded(sl, e.unit, e.provider) {
          var order := sl.entries[units[0]].order;
          assert e.provider in order;
          var i :| 0 <= i < |order| && order[i] == e.provider;
          if sl.entries[e.unit].entries[e.provider] == e.outage {
            assert head[i] == e;
          }
        }
      }
    }
  }

  /** No (unit, provider) pair occurs twice among the entries. */
  predicate DistinctPairs(es: seq<Entry>) {
    forall i, j | 0 <= i < j < |es| :: (es[i].unit, es[i].provider) != (es[j].unit, es[j].provider)
  }

  lemma DistinctPairsAppend(a: seq<Entry>, b: seq<Entry>)
    requires DistinctPairs(a) && DistinctPairs(b)
    requires forall x <- a, y <- b :: x.unit != y.unit
    ensures DistinctPairs(a + b)
  {
    forall i, j | 0 <= i < j < |a + b|
      ensures ((a + b)[i].unit, (a + b)[i].provider) != ((a + b)[j].unit, (a + b)[j].provider)
    {
      if j < |a| {
        assert (a + b)[i] == a[i] && (a + b)[j] == a[j];
      } else if i >= |a| {
        assert (a + b)[i] == b[i - |a|] && (a + b)[j] == b[j - |a|];
      } else {
        assert (a + b)[i] == a[i] && (a + b)[j] == b[j - |a|];
        assert a[i] in a && b[j - |a|] in b;
      }
    }
  }

  lemma {:induction false} UnitEntriesDistinct(units: seq<string>, sl: StatusLinks)
    requires forall u <- units :: u in sl.entries
    requires PyDict.Distinct(units)
    ensures DistinctPairs(UnitEntries(units, sl))
    decreases |units|
  {
    if |units| > 0 {
      var order := sl.entries[units[0]].order;
      var head := ProviderEntries(units[0], order, sl.entries[units[0]]);
      var tail := UnitEntries(units[1..], sl);
      assert PyDict.Distinct(units[1..]) by {
        forall i, j | 0 <= i < j < |units[1..]| ensures units[1..][i] != units[1..][j] {
          assert units[1..][i] == units[i + 1] && units[1..][j] == units[j + 1];
        }
      }
      UnitEntriesDistinct(units[1..], sl);
      UnitEntriesAreTheOutages(units[1..], sl);
      assert DistinctPairs(head) by {
        assert PyDict.Distinct(order);
        forall i, j | 0 <= i < j < |head| ensures (head[i].unit, head[i].provider) != (head[j].unit, head[j].provider) {
          assert head[i].provider == order[i] && head[j].provider == order[j];
        }
      }
      assert units[0] !in units[1..];
      assert forall x <- head :: x.unit == units[0];
      assert forall y <- tail :: y.unit in units[1..];
      DistinctPairsAppend(head, tail);
    }
  }

  /**
   The report's entries are exactly the announced outages with their start
   times, each (unit, provider) pair once.
   */
  lemma EntriesAreTheOutages(sl: StatusLinks)
    ensures forall e :: e in Entries(sl) <==>
      Recorded(sl, e.unit, e.provider) && sl.entries[e.unit].entries[e.provider] == e.outage
    ensures DistinctPairs(Entries(sl))
  {
    UnitEntriesAreTheOutages(sl.order, sl);
    UnitEntriesDistinct(sl.order, sl);
  }

  /**
   On a weekday, with the table kept free of empty units (as every check
   keeps it), a non-empty table yields a report listing at least one outage.
   */
  lemma ReportListsSomeOutage(day: Weekday, sl: StatusLinks, format: int -> string)
    requires day < 5 && NoEmptyUnit(sl) && !PyDict.IsEmpty(sl)
    ensures |Entries(sl)| > 0
    ensures Report(day, sl, format).Some? && Report(day, sl, format).value != AllClear
  {
    PyDict.EmptyHasNoOrder(sl);
    var u := sl.order[0];
    PyDict.EmptyHasNoOrder(sl.entries[u]);
    var p := sl.entries[u].order[0];
    EntriesAreTheOutages(sl);
    assert Entry(u, p, sl.entries[u].entries[p]) in Entries(sl);
    assert ReportHeader[0] != AllClear[0];
  }

  /** `line` appears in `text` starting at position `i`. */
  predicate OccursAt(line: string, text: string, i: int) {
    0 <= i <= |text| - |line| && text[i..i + |line|] == line
  }

  /** `line` appears somewhere in `text`. */
  predicate Occurs(line: string, text: string) {
    exists i | 0 <= i <= |text| :: OccursAt(line, text, i)
  }

  /** Every line of a concatenation appears in it. */
  lemma {:induction false} ConcatHasEachLine(lines: seq<string>, k: nat)
    requires k < |lines|
    ensures Occurs(lines[k], Concat(lines))
    decreases k
  {
    var c := Concat(lines);
    if k == 0 {
      assert OccursAt(lines[0], c, 0);
    } else {
      ConcatHasEachLine(lines[1..], k - 1);
      var rest := Concat(lines[1..]);
      var line := lines[1..][k - 1];
      var i :| 0 <= i <= |rest| && OccursAt(line, rest, i);
      assert 0 <= i <= |rest| - |line| && rest[i..i + |line|] == line;
      assert c == lines[0] + rest;
      var j := |lines[0]| + i;
      assert c[j..j + |line|] == rest[i..i + |line|];
      assert OccursAt(lines[k], c, j);
    }
  }

  /** On a weekday, every announced outage has its own line after the header. */
  lemma ReportListsEveryOutage(day: Weekday, sl: StatusLinks, format: int -> string)
    requires day < 5 && !PyDict.IsEmpty(sl)
    ensures Report(day, sl, format).Some?
    ensures forall e <- Entries(sl) ::
      Occurs(ReportLine(e, format), Report(day, sl, format).value[|ReportHeader|..])
  {
    var es := Entries(sl);
    var lines := seq(|es|, i requires 0 <= i < |es| => ReportLine(es[i], format));
    var text := Report(day, sl, format).value;
    assert text == ReportHeader + Concat(lines);
    assert text[|ReportHeader|..] == Concat(lines);
    forall e <- es
      ensures Occurs(ReportLine(e, format), text[|ReportHeader|..])
    {
      var k :| 0 <= k < |es| && es[k] == e;
      ConcatHasEachLine(lines, k);
    }
  }
}
