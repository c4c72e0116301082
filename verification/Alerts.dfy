/** Alert evaluation: which events are due, the debounce against the stored events, and how far apart alerts
    are under any clock. */
module Alerts {
  import opened Basics
  import opened Text

  // ---------- Durations ----------

  const SECOND: int := 1_000_000_000
  const MAX_INT64: int := 0x7FFF_FFFF_FFFF_FFFF
  const MIN_INT64: int := -0x8000_0000_0000_0000

  /** time.Time.Sub: the difference of two instants, held at the ends of the range. */
  function Sub(a: int, b: int): int {
    if a - b > MAX_INT64 then MAX_INT64 else if a - b < MIN_INT64 then MIN_INT64 else a - b
  }

  /** Against a duration inside the range it compares like the difference itself. */
  lemma SubMeans(a: int, b: int, d: int)
    requires -0x8000_0000_0000_0000 < d < 0x7FFF_FFFF_FFFF_FFFF
    ensures (Sub(a, b) > d <==> a - b > d) && (Sub(a, b) < d <==> a - b < d)
  {
  }

  /** An int64 product as the machine leaves it. */
  function Wrap(x: int): int {
    (x - MIN_INT64) % 0x1_0000_0000_0000_0000 + MIN_INT64
  }

  function Debounce(seconds: int): int {
    Wrap(seconds * SECOND)
  }

  // ---------- The event table ----------

  datatype Event = Event(ruleID: nat, nodeID: string, upsID: string, subjectKey: string, kind: string, createdAt: int)

  /** createdAt is stored as text with whole seconds. */
  datatype Row = Row(ruleID: nat, nodeID: string, upsID: string, subjectKey: string, kind: string, createdAt: int)

  function RowOf(e: Event): Row {
    Row(e.ruleID, TrimSpace(e.nodeID), TrimSpace(e.upsID), TrimSpace(e.subjectKey), TrimSpace(e.kind),
        e.createdAt / SECOND)
  }

  predicate About(row: Row, ruleID: nat, subject: string) {
    row.ruleID == ruleID && row.subjectKey == subject
  }

  /** The place of the row that sorts first by time and then by id, both descending; ids follow insertion. */
  function LastAbout(rows: seq<Row>, ruleID: nat, subject: string): (place: Option<nat>)
    ensures place.Some? ==> place.value < |rows| && About(rows[place.value], ruleID, subject)
  {
    if rows == [] then None
    else
      var last := |rows| - 1;
      var before := LastAbout(rows[..last], ruleID, subject);
      if About(rows[last], ruleID, subject)
         && (before.None? || rows[before.value].createdAt <= rows[last].createdAt)
      then Some(last) else before
  }

  /** It is the row of the latest time, and of these the one inserted last. */
  lemma {:induction false} LastAboutIsLatest(rows: seq<Row>, ruleID: nat, subject: string)
    ensures LastAbout(rows, ruleID, subject).None? <==> forall i | 0 <= i < |rows| :: !About(rows[i], ruleID, subject)
    ensures LastAbout(rows, ruleID, subject).Some? ==>
              var p := LastAbout(rows, ruleID, subject).value;
              forall i | 0 <= i < |rows| && About(rows[i], ruleID, subject) ::
                rows[i].createdAt < rows[p].createdAt || (rows[i].createdAt == rows[p].createdAt && i <= p)
  {
    if rows != [] {
      LastAboutIsLatest(rows[..|rows| - 1], ruleID, subject);
    }
  }

  // ---------- Firing ----------

  datatype AlertRule = AlertRule(id: nat, kind: string, threshold: Option<real>, debounceSeconds: int, enabled: bool)

  datatype Fault = NoFault | LookupFails | InsertFails

  function NoFaults(n: nat): Fault {
    NoFault
  }

  /** A delivery at an instant; row is the event stored for it, if storing it succeeded. */
  datatype Firing = Firing(ruleID: nat, subject: string, at: int, row: Option<nat>)

  datatype Ledger = Ledger(rows: seq<Row>, firings: seq<Firing>)

  predicate Debounced(rows: seq<Row>, rule: AlertRule, e: Event) {
    var last := LastAbout(rows, rule.id, TrimSpace(e.subjectKey));
    last.Some? && Sub(e.createdAt, rows[last.value].createdAt * SECOND) < Debounce(rule.debounceSeconds)
  }

  function Insert(l: Ledger, e: Event, stored: bool): Ledger {
    Ledger(if stored then l.rows + [RowOf(e)] else l.rows,
           l.firings + [Firing(e.ruleID, TrimSpace(e.subjectKey), e.createdAt,
                               if stored then Some(|l.rows|) else None)])
  }

  function Fire(l: Ledger, rule: AlertRule, e: Event, fault: Fault): Ledger {
    if fault.LookupFails? || Debounced(l.rows, rule, e) then l else Insert(l, e, !fault.InsertFails?)
  }

  // ---------- What is due ----------

  datatype CommsState = Online | Degraded | Offline | Unknown

  datatype Summary = Summary(name: string, status: string, charge: Option<real>)

  /** lastSeen is None for the zero time; summaries is None when they cannot be loaded. */
  datatype Node = Node(id: string, lastSeen: Option<int>, comms: CommsState, summaries: Option<seq<Summary>>)

  const NODE_OFFLINE: string := "node_offline"
  const COMMS_LOST: string := "comms_lost"
  const ON_BATTERY: string := "on_battery"
  const LOW_BATTERY: string := "low_battery"

  predicate SummaryIsDue(rule: AlertRule, s: Summary) {
    || (rule.kind == ON_BATTERY && Contains(Upper(s.status), "OB"))
    || (rule.kind == LOW_BATTERY && rule.threshold.Some? && s.charge.Some? && s.charge.value <= rule.threshold.value)
  }

  function SummaryEvents(rule: AlertRule, node: Node, summaries: seq<Summary>, now: int): seq<Event> {
    if summaries == [] then []
    else
      var s := summaries[|summaries| - 1];
      var key := node.id + ":" + s.name;
      SummaryEvents(rule, node, summaries[..|summaries| - 1], now)
      + if SummaryIsDue(rule, s) then [Event(rule.id, node.id, key, key, rule.kind, now)] else []
  }

  function EventsDue(rule: AlertRule, node: Node, now: int, offlineAfter: int): seq<Event> {
    var nodeEvent := [Event(rule.id, node.id, "", node.id, rule.kind, now)];
    if rule.kind == NODE_OFFLINE then
      if node.lastSeen.Some? && Sub(now, node.lastSeen.value) > offlineAfter then nodeEvent else []
    else if rule.kind == COMMS_LOST then
      if node.comms == Degraded || node.comms == Offline then nodeEvent else []
    else if (rule.kind == ON_BATTERY || rule.kind == LOW_BATTERY) && node.summaries.Some? then
      SummaryEvents(rule, node, node.summaries.value, now)
    else []
  }

  function SubjectOf(node: Node, s: Summary): string {
    node.id + ":" + s.name
  }

  /** What a rule about UPSes looks for: a status with OB in it, in either case, or a charge at the threshold or
      below. */
  ghost predicate Alarms(rule: AlertRule, s: Summary) {
    if rule.kind == "on_battery" then exists a: string, b: string :: Upper(s.status) == a + "OB" + b
    else
      && rule.kind == "low_battery" && rule.threshold.Some? && s.charge.Some?
      && s.charge.value <= rule.threshold.value
  }

  lemma AlarmsAreDue(rule: AlertRule, s: Summary)
    ensures SummaryIsDue(rule, s) <==> Alarms(rule, s)
  {
    hide Upper, Contains;
    ContainsMeans(Upper(s.status), "OB");
    assert ON_BATTERY[0] != LOW_BATTERY[0];
  }

  /** What each kind of rule is about: a node not seen for longer than allowed, a node whose communication suffers, or
      an alarm of one of its UPSes. */
  ghost predicate IsDue(rule: AlertRule, node: Node, now: int, offlineAfter: int, subject: string) {
    if rule.kind == "node_offline" then
      subject == node.id && node.lastSeen.Some? && Sub(now, node.lastSeen.value) > offlineAfter
    else if rule.kind == "comms_lost" then
      subject == node.id && (node.comms.Degraded? || node.comms.Offline?)
    else
      node.summaries.Some? && SummaryDue(rule, node, node.summaries.value, subject)
  }

  ghost predicate SummaryDue(rule: AlertRule, node: Node, summaries: seq<Summary>, subject: string) {
    exists i :: 0 <= i < |summaries| && subject == node.id + ":" + summaries[i].name && Alarms(rule, summaries[i])
  }

  ghost predicate Raises(events: seq<Event>, subject: string) {
    exists i :: 0 <= i < |events| && events[i].subjectKey == subject
  }

  lemma {:induction false} SummariesRaise(rule: AlertRule, node: Node, summaries: seq<Summary>, now: int,
                                          subject: string)
    ensures Raises(SummaryEvents(rule, node, summaries, now), subject) <==> SummaryDue(rule, node, summaries, subject)
  {
    hide SummaryIsDue, Alarms;
    if summaries != [] {
      var last := |summaries| - 1;
      var events := SummaryEvents(rule, node, summaries, now);
      var before := SummaryEvents(rule, node, summaries[..last], now);
      SummariesRaise(rule, node, summaries[..last], now, subject);
      AlarmsAreDue(rule, summaries[last]);
      var lastRaises := SummaryIsDue(rule, summaries[last]) && subject == SubjectOf(node, summaries[last]);
      assert Raises(events, subject) <==> Raises(before, subject) || lastRaises by {
        if Raises(before, subject) {
          var i :| 0 <= i < |before| && before[i].subjectKey == subject;
          assert events[i].subjectKey == subject;
        }
        if SummaryIsDue(rule, summaries[last]) {
          assert events[|before|].subjectKey == SubjectOf(node, summaries[last]);
        }
      }
      assert SummaryDue(rule, node, summaries[..last], subject) ==> SummaryDue(rule, node, summaries, subject) by {
        var shorter := summaries[..last];
        if i :| 0 <= i < last && subject == SubjectOf(node, shorter[i]) && Alarms(rule, shorter[i]) {
          assert summaries[i] == shorter[i];
        }
      }
      if i :| 0 <= i < last && subject == SubjectOf(node, summaries[i]) && Alarms(rule, summaries[i]) {
        assert summaries[..last][i] == summaries[i];
      }
    }
  }

  /** The events due are about exactly the subjects to which the rule's condition applies. */
  lemma DueExactly(rule: AlertRule, node: Node, now: int, offlineAfter: int, subject: string)
    ensures Raises(EventsDue(rule, node, now, offlineAfter), subject) <==> IsDue(rule, node, now, offlineAfter, subject)
  {
    hide SummaryIsDue, Alarms;
    if node.summaries.Some? {
      SummariesRaise(rule, node, node.summaries.value, now, subject);
      if rule.kind != ON_BATTERY && rule.kind != LOW_BATTERY {
        OtherKinds(rule);
      }
    }
    var events := EventsDue(rule, node, now, offlineAfter);
    assert events != [] && events[0].subjectKey == subject ==> Raises(events, subject);
  }

  lemma OtherKinds(rule: AlertRule)
    requires rule.kind != ON_BATTERY && rule.kind != LOW_BATTERY
    ensures forall s: Summary :: !Alarms(rule, s)
  {
  }

  ghost predicate OncePerSubject(events: seq<Event>) {
    forall i, j | 0 <= i < j < |events| :: events[i].subjectKey != events[j].subjectKey
  }

  lemma {:induction false} SummariesRaiseOnce(rule: AlertRule, node: Node, summaries: seq<Summary>, now: int)
    requires forall i, j | 0 <= i < j < |summaries| :: summaries[i].name != summaries[j].name
    ensures OncePerSubject(SummaryEvents(rule, node, summaries, now))
  {
    hide SummaryIsDue;
    if summaries != [] {
      var last := |summaries| - 1;
      var before := SummaryEvents(rule, node, summaries[..last], now);
      SummariesRaiseOnce(rule, node, summaries[..last], now);
      var subject := SubjectOf(node, summaries[last]);
      SummariesRaise(rule, node, summaries[..last], now, subject);
      forall i | 0 <= i < last ensures SubjectOf(node, summaries[..last][i]) != subject {
        SameTail(node.id + ":", summaries[i].name, summaries[last].name);
      }
      assert forall i | 0 <= i < |before| :: before[i].subjectKey == subject ==> Raises(before, subject);
    }
  }

  lemma SameTail(prefix: string, a: string, b: string)
    requires a != b
    ensures prefix + a != prefix + b
  {
    assert (prefix + a)[|prefix|..] == a && (prefix + b)[|prefix|..] == b;
  }

  /** No white space at either end. */
  predicate Tight(s: string) {
    s != "" ==> !IsSpace(s[0]) && !IsSpace(s[|s| - 1])
  }

  /** Ids without a colon, tight names, and no UPS name twice: what keeps subjects apart. */
  ghost predicate WellNamed(node: Node) {
    && Tight(node.id) && ':' !in node.id
    && (node.summaries.Some? ==> forall i | 0 <= i < |node.summaries.value| :: Tight(node.summaries.value[i].name))
    && (node.summaries.Some? ==>
          forall i, j | 0 <= i < j < |node.summaries.value| ::
            node.summaries.value[i].name != node.summaries.value[j].name)
  }

  lemma SubjectIsTight(node: Node, s: Summary)
    requires Tight(node.id) && Tight(s.name)
    ensures TrimSpace(SubjectOf(node, s)) == SubjectOf(node, s)
  {
    hide TrimSpace;
    var key := SubjectOf(node, s);
    assert node.id == "" ==> key[0] == ':';
    assert s.name == "" ==> key[|key| - 1] == ':';
    assert node.id != "" ==> key[0] == node.id[0];
    assert s.name != "" ==> key[|key| - 1] == s.name[|s.name| - 1];
    TrimKeepsTight(key);
  }

  lemma {:induction false} SummarySubjectsAreTight(rule: AlertRule, node: Node, summaries: seq<Summary>, now: int)
    requires Tight(node.id) && forall i | 0 <= i < |summaries| :: Tight(summaries[i].name)
    ensures forall i | 0 <= i < |SummaryEvents(rule, node, summaries, now)| ::
              var key := SummaryEvents(rule, node, summaries, now)[i].subjectKey; TrimSpace(key) == key
  {
    hide SummaryIsDue, TrimSpace, Tight;
    if summaries != [] {
      var last := |summaries| - 1;
      SummarySubjectsAreTight(rule, node, summaries[..last], now);
      SubjectIsTight(node, summaries[last]);
    }
  }

  /** The subjects of a well-named node's events are stored as they are. */
  lemma SubjectsAreTight(rule: AlertRule, node: Node, now: int, offlineAfter: int)
    requires WellNamed(node)
    ensures forall i | 0 <= i < |EventsDue(rule, node, now, offlineAfter)| ::
              var key := EventsDue(rule, node, now, offlineAfter)[i].subjectKey; TrimSpace(key) == key
  {
    hide SummaryIsDue, SummaryEvents, TrimSpace;
    TrimKeepsTight(node.id);
    if node.summaries.Some? {
      SummarySubjectsAreTight(rule, node, node.summaries.value, now);
    }
  }

  /** Some event is stored and looked up under the subject. */
  ghost predicate RaisesStored(events: seq<Event>, subject: string) {
    exists i :: 0 <= i < |events| && TrimSpace(events[i].subjectKey) == subject
  }

  ghost predicate OncePerStoredSubject(events: seq<Event>) {
    forall i, j | 0 <= i < j < |events| :: TrimSpace(events[i].subjectKey) != TrimSpace(events[j].subjectKey)
  }

  /** One rule raises at most one event about a subject, as stored, in one evaluation of well-named nodes with
      distinct ids. */
  lemma OneEventPerSubject(rule: AlertRule, node: Node, other: Node, now: int, offlineAfter: int, subject: string)
    requires WellNamed(node) && WellNamed(other) && node.id != other.id
    ensures OncePerStoredSubject(EventsDue(rule, node, now, offlineAfter))
    ensures !(RaisesStored(EventsDue(rule, node, now, offlineAfter), subject)
              && RaisesStored(EventsDue(rule, other, now, offlineAfter), subject))
  {
    hide SummaryIsDue, EventsDue, TrimSpace;
    NodeRaisesOnce(rule, node, now, offlineAfter);
    SubjectsAreTight(rule, node, now, offlineAfter);
    SubjectsAreTight(rule, other, now, offlineAfter);
    NodesDiffer(rule, node, other, now, offlineAfter, subject);
    assert RaisesStored(EventsDue(rule, node, now, offlineAfter), subject) ==>
        Raises(EventsDue(rule, node, now, offlineAfter), subject);
    assert RaisesStored(EventsDue(rule, other, now, offlineAfter), subject) ==>
        Raises(EventsDue(rule, other, now, offlineAfter), subject);
  }

  lemma NodesDiffer(rule: AlertRule, node: Node, other: Node, now: int, offlineAfter: int, subject: string)
    requires ':' !in node.id && ':' !in other.id && node.id != other.id
    ensures !(Raises(EventsDue(rule, node, now, offlineAfter), subject)
              && Raises(EventsDue(rule, other, now, offlineAfter), subject))
  {
    hide SummaryIsDue, EventsDue, IndexOf;
    DueExactly(rule, node, now, offlineAfter, subject);
    DueExactly(rule, other, now, offlineAfter, subject);
    if node.summaries.Some? && other.summaries.Some? {
      var ours, theirs := node.summaries.value, other.summaries.value;
      forall i, j | 0 <= i < |ours| && 0 <= j < |theirs|
        ensures SubjectOf(node, ours[i]) != SubjectOf(other, theirs[j])
      {
        HeadsDiffer(node.id, ours[i].name, other.id, theirs[j].name);
      }
    }
  }

  lemma HeadsDiffer(a: string, x: string, b: string, y: string)
    requires ':' !in a && ':' !in b && a != b
    ensures a + ":" + x != b + ":" + y
  {
    hide IndexOf;
    IndexOfFirst(a, ':', x);
    IndexOfFirst(b, ':', y);
    assert (a + ":" + x)[..|a|] == a && (b + ":" + y)[..|b|] == b;
  }

  lemma NodeRaisesOnce(rule: AlertRule, node: Node, now: int, offlineAfter: int)
    requires node.summaries.Some? ==>
               forall i, j | 0 <= i < j < |node.summaries.value| ::
                 node.summaries.value[i].name != node.summaries.value[j].name
    ensures OncePerSubject(EventsDue(rule, node, now, offlineAfter))
  {
    hide SummaryIsDue, SummaryEvents;
    if node.summaries.Some? {
      SummariesRaiseOnce(rule, node, node.summaries.value, now);
    }
  }

  /** The event names its rule, its node, its kind and its time, and the UPS when it is about one. */
  ghost predicate Describes(e: Event, rule: AlertRule, node: Node, now: int) {
    && e.ruleID == rule.id && e.nodeID == node.id && e.kind == rule.kind && e.createdAt == now
    && e.upsID == if rule.kind == "node_offline" || rule.kind == "comms_lost" then "" else e.subjectKey
  }

  lemma {:induction false} SummaryEventsDescribe(rule: AlertRule, node: Node, summaries: seq<Summary>, now: int)
    requires rule.kind != NODE_OFFLINE && rule.kind != COMMS_LOST
    ensures forall e | e in SummaryEvents(rule, node, summaries, now) :: Describes(e, rule, node, now)
  {
    hide SummaryIsDue;
    if summaries != [] {
      SummaryEventsDescribe(rule, node, summaries[..|summaries| - 1], now);
    }
  }

  lemma DueForThisRule(rule: AlertRule, node: Node, now: int, offlineAfter: int)
    ensures forall i | 0 <= i < |EventsDue(rule, node, now, offlineAfter)| ::
              Describes(EventsDue(rule, node, now, offlineAfter)[i], rule, node, now)
  {
    hide SummaryEvents;
    if node.summaries.Some? && rule.kind != NODE_OFFLINE && rule.kind != COMMS_LOST {
      SummaryEventsDescribe(rule, node, node.summaries.value, now);
    }
  }

  lemma DueIsTheRules(rule: AlertRule, node: Node, now: int, offlineAfter: int, i: nat)
    requires i < |EventsDue(rule, node, now, offlineAfter)|
    ensures EventsDue(rule, node, now, offlineAfter)[i].ruleID == rule.id
  {
    hide EventsDue;
    DueForThisRule(rule, node, now, offlineAfter);
    assert Describes(EventsDue(rule, node, now, offlineAfter)[i], rule, node, now);
  }

  /** Offers each event in turn; faults are numbered from start. */
  function FireAll(l: Ledger, rule: AlertRule, events: seq<Event>, faults: nat -> Fault, start: nat): Ledger {
    if events == [] then l
    else
      var last := |events| - 1;
      Fire(FireAll(l, rule, events[..last], faults, start), rule, events[last], faults(start + last))
  }

  datatype Tally = Tally(ledger: Ledger, offered: nat)

  function OverNodes(t: Tally, rule: AlertRule, nodes: seq<Node>, now: int, offlineAfter: int, faults: nat -> Fault)
    : Tally
  {
    if nodes == [] then t
    else
      var before := OverNodes(t, rule, nodes[..|nodes| - 1], now, offlineAfter, faults);
      var events := EventsDue(rule, nodes[|nodes| - 1], now, offlineAfter);
      Tally(FireAll(before.ledger, rule, events, faults, before.offered), before.offered + |events|)
  }

  function OverRules(t: Tally, rules: seq<AlertRule>, nodes: seq<Node>, now: int, offlineAfter: int,
                     faults: nat -> Fault): Tally
  {
    if rules == [] then t
    else
      var before := OverRules(t, rules[..|rules| - 1], nodes, now, offlineAfter, faults);
      var rule := rules[|rules| - 1];
      if rule.enabled then OverNodes(before, rule, nodes, now, offlineAfter, faults) else before
  }

  const DEFAULT_OFFLINE_AFTER: int := 45 * SECOND

  function OfflineAfter(configured: int): int {
    if configured <= 0 then DEFAULT_OFFLINE_AFTER else configured
  }

  function Evaluate(l: Ledger, rules: seq<AlertRule>, nodes: seq<Node>, now: int, offlineAfter: int,
                    faults: nat -> Fault): Ledger
  {
    OverRules(Tally(l, 0), rules, nodes, now, OfflineAfter(offlineAfter), faults).ledger
  }

  /** The subject under which a rule's test events are filed. */
  function TestSubject(ruleID: nat): string {
    TrimSpace("test:" + Decimal(ruleID))
  }

  function Test(l: Ledger, rule: AlertRule, now: int, stored: bool): Ledger {
    Insert(l, Event(rule.id, "test-node", "", "test:" + Decimal(rule.id), rule.kind, now), stored)
  }

  class Engine {
    var rows: seq<Row>
    ghost var firings: seq<Firing>

    ghost function View(): Ledger
      reads this
    {
      Ledger(rows, firings)
    }

    constructor ()
      ensures View() == Ledger([], [])
    {
      rows, firings := [], [];
    }

    /** The stored event of a rule and subject with the latest time. */
    method LastAlertEvent(ruleID: nat, subjectKey: string) returns (last: Option<Row>)
      ensures var place := LastAbout(rows, ruleID, TrimSpace(subjectKey));
              last == if place.None? then None else Some(rows[place.value])
    {
      var subject := TrimSpace(subjectKey);
      last := None;
      for i := 0 to |rows|
        invariant var place := LastAbout(rows[..i], ruleID, subject);
                  last == if place.None? then None else Some(rows[place.value])
      {
        assert rows[..i + 1][..i] == rows[..i];
        if About(rows[i], ruleID, subject) && (last.None? || last.value.createdAt <= rows[i].createdAt) {
          last := Some(rows[i]);
        }
      }
      assert rows[..|rows|] == rows;
    }

    /** Delivers and stores an event unless the last one about its subject is too recent. */
    method MaybeFireEvent(rule: AlertRule, event: Event, fault: Fault)
      requires event.ruleID == rule.id
      modifies this
      ensures View() == Fire(old(View()), rule, event, fault)
    {
      hide LastAbout, TrimSpace, Wrap;
      if fault.LookupFails? {
        return;
      }
      var last := LastAlertEvent(rule.id, event.subjectKey);
      if last.Some? && Sub(event.createdAt, last.value.createdAt * SECOND) < Debounce(rule.debounceSeconds) {
        return;
      }
      firings := firings + [Firing(event.ruleID, TrimSpace(event.subjectKey), event.createdAt,
                                   if fault.InsertFails? then None else Some(|rows|))];
      if !fault.InsertFails? {
        rows := rows + [RowOf(event)];
      }
    }

    method DueEvents(rule: AlertRule, node: Node, now: int, offlineAfter: int) returns (events: seq<Event>)
      ensures events == EventsDue(rule, node, now, offlineAfter)
    {
      events := [];
      if rule.kind == NODE_OFFLINE {
        if node.lastSeen.Some? && Sub(now, node.lastSeen.value) > offlineAfter {
          events := events + [Event(rule.id, node.id, "", node.id, rule.kind, now)];
        }
      } else if rule.kind == COMMS_LOST {
        if node.comms == Degraded || node.comms == Offline {
          events := events + [Event(rule.id, node.id, "", node.id, rule.kind, now)];
        }
      } else if rule.kind == ON_BATTERY || rule.kind == LOW_BATTERY {
        if node.summaries.None? {
          return;
        }
        var summaries := node.summaries.value;
        for i := 0 to |summaries|
          invariant events == SummaryEvents(rule, node, summaries[..i], now)
        {
          hide Contains, Upper;
          assert summaries[..i + 1][..i] == summaries[..i];
          var subjectKey := node.id + ":" + summaries[i].name;
          if SummaryIsDue(rule, summaries[i]) {
            events := events + [Event(rule.id, node.id, subjectKey, subjectKey, rule.kind, now)];
          }
        }
        assert summaries[..|summaries|] == summaries;
      }
    }

    method EvaluateOnce(rules: seq<AlertRule>, nodes: seq<Node>, now: int, nodeOfflineAfter: int, faults: nat -> Fault)
      modifies this
      ensures View() == Evaluate(old(View()), rules, nodes, now, nodeOfflineAfter, faults)
    {
      hide Fire, EventsDue;
      var offlineAfter := if nodeOfflineAfter <= 0 then DEFAULT_OFFLINE_AFTER else nodeOfflineAfter;
      ghost var t := Tally(View(), 0);
      var offered := 0;
      for r := 0 to |rules|
        invariant Tally(View(), offered) == OverRules(t, rules[..r], nodes, now, offlineAfter, faults)
      {
        assert rules[..r + 1][..r] == rules[..r];
        var rule := rules[r];
        if !rule.enabled {
          continue;
        }
        ghost var before := Tally(View(), offered);
        for n := 0 to |nodes|
          invariant Tally(View(), offered) == OverNodes(before, rule, nodes[..n], now, offlineAfter, faults)
        {
          assert nodes[..n + 1][..n] == nodes[..n];
          var events := DueEvents(rule, nodes[n], now, offlineAfter);
          ghost var was, start := View(), offered;
          for e := 0 to |events|
            invariant View() == FireAll(was, rule, events[..e], faults, start) && offered == start + e
          {
            assert events[e].ruleID == rule.id by { DueIsTheRules(rule, nodes[n], now, offlineAfter, e); }
            assert events[..e + 1][..e] == events[..e];
            MaybeFireEvent(rule, events[e], faults(offered));
            offered := offered + 1;
          }
          assert events[..|events|] == events;
        }
        assert nodes[..|nodes|] == nodes;
      }
      assert rules[..|rules|] == rules;
    }

    method TestRule(rule: AlertRule, now: int, stored: bool)
      modifies this
      ensures View() == Test(old(View()), rule, now, stored)
    {
      var event := Event(rule.id, "test-node", "", "test:" + Decimal(rule.id), rule.kind, now);
      firings := firings + [Firing(rule.id, TrimSpace(event.subjectKey), now, if stored then Some(|rows|) else None)];
      if stored {
        rows := rows + [RowOf(event)];
      }
    }
  }

  // ---------- How far apart alerts are ----------

  // The longest debounce whose nanoseconds fit into int64.
  const MAX_DEBOUNCE_SECONDS: int := 9_223_372_036

  predicate Concerns(f: Firing, ruleID: nat, subject: string) {
    f.ruleID == ruleID && f.subject == subject
  }

  /** The stored times about a subject grow by the debounce interval from each row to any later one; a delivery
      comes more than that interval less one second after each earlier stored delivery. */
  ghost predicate Spaced(l: Ledger, ruleID: nat, subject: string, interval: int) {
    && (forall i, j | 0 <= i < j < |l.rows| && About(l.rows[i], ruleID, subject) && About(l.rows[j], ruleID, subject) ::
          l.rows[j].createdAt >= l.rows[i].createdAt + interval)
    && (forall i | 0 <= i < |l.firings| && Concerns(l.firings[i], ruleID, subject) && l.firings[i].row.Some? ::
          && l.firings[i].row.value < |l.rows|
          && About(l.rows[l.firings[i].row.value], ruleID, subject)
          && l.rows[l.firings[i].row.value].createdAt == l.firings[i].at / SECOND)
    && (forall i, j | 0 <= i < j < |l.firings| && Concerns(l.firings[i], ruleID, subject)
                      && Concerns(l.firings[j], ruleID, subject) && l.firings[i].row.Some? ::
          l.firings[j].at - l.firings[i].at > (interval - 1) * SECOND)
  }

  /** The event comes at least the interval after every stored event about its subject. */
  ghost predicate ClearOf(rows: seq<Row>, ruleID: nat, subject: string, at: int, interval: int) {
    forall k | 0 <= k < |rows| && About(rows[k], ruleID, subject) ::
      at - rows[k].createdAt * 1_000_000_000 >= interval * 1_000_000_000
  }

  lemma WrapExact(x: int)
    requires MIN_INT64 <= x <= MAX_INT64
    ensures Wrap(x) == x
  {
  }

  /** For every interval the arithmetic can hold, an event is let through exactly when it comes at least the
      interval after all stored events about its subject, not only after the last one. */
  lemma DebounceIsExact(rows: seq<Row>, rule: AlertRule, e: Event)
    requires -MAX_DEBOUNCE_SECONDS <= rule.debounceSeconds <= MAX_DEBOUNCE_SECONDS
    ensures !Debounced(rows, rule, e) <==>
            ClearOf(rows, rule.id, TrimSpace(e.subjectKey), e.createdAt, rule.debounceSeconds)
  {
    hide TrimSpace, LastAbout, Wrap;
    LastAboutIsLatest(rows, rule.id, TrimSpace(e.subjectKey));
    WrapExact(rule.debounceSeconds * SECOND);
  }

  /** The row stored for an event: its texts without white space around them, its time to the whole second. */
  ghost predicate IsStoredAs(row: Row, e: Event) {
    && row.ruleID == e.ruleID && row.nodeID == TrimSpace(e.nodeID) && row.upsID == TrimSpace(e.upsID)
    && row.subjectKey == TrimSpace(e.subjectKey) && row.kind == TrimSpace(e.kind)
    && row.createdAt * 1_000_000_000 <= e.createdAt < (row.createdAt + 1) * 1_000_000_000
  }

  /** One event is delivered now, and stored if stored says so. */
  ghost predicate Delivers(l: Ledger, after: Ledger, e: Event, stored: bool) {
    && |after.firings| == |l.firings| + 1 && after.firings[..|l.firings|] == l.firings
    && var f := after.firings[|l.firings|];
       && f.ruleID == e.ruleID && f.subject == TrimSpace(e.subjectKey) && f.at == e.createdAt
       && f.row == (if stored then Some(|l.rows|) else None)
       && (if stored then |after.rows| == |l.rows| + 1 && after.rows[..|l.rows|] == l.rows
                          && IsStoredAs(after.rows[|l.rows|], e)
           else after.rows == l.rows)
  }

  /** An event offered is delivered exactly when the lookup works and no stored event about its subject is within the
      interval; it is then stored unless that fails. Otherwise nothing happens. */
  lemma FireExactly(l: Ledger, rule: AlertRule, e: Event, fault: Fault)
    requires -MAX_DEBOUNCE_SECONDS <= rule.debounceSeconds <= MAX_DEBOUNCE_SECONDS
    ensures var after := Fire(l, rule, e, fault);
            if !fault.LookupFails?
               && ClearOf(l.rows, rule.id, TrimSpace(e.subjectKey), e.createdAt, rule.debounceSeconds)
            then Delivers(l, after, e, !fault.InsertFails?)
            else after == l
  {
    hide TrimSpace, Debounced, ClearOf;
    DebounceIsExact(l.rows, rule, e);
  }

  /** A test is delivered whatever is stored, as an event about a node of its own. */
  lemma TestDelivers(l: Ledger, rule: AlertRule, now: int, stored: bool)
    ensures Delivers(l, Test(l, rule, now, stored),
                     Event(rule.id, "test-node", "", "test:" + Decimal(rule.id), rule.kind, now), stored)
  {
    hide TrimSpace, Decimal;
  }

  lemma InsertKeepsSpaced(l: Ledger, e: Event, stored: bool, ruleID: nat, subject: string, interval: int)
    requires Spaced(l, ruleID, subject, interval)
    requires e.ruleID == ruleID && TrimSpace(e.subjectKey) == subject ==>
               ClearOf(l.rows, ruleID, subject, e.createdAt, interval)
    ensures Spaced(Insert(l, e, stored), ruleID, subject, interval)
  {
    hide TrimSpace;
  }

  lemma FireKeepsSpaced(l: Ledger, rule: AlertRule, e: Event, fault: Fault, ruleID: nat, subject: string, interval: int)
    requires Spaced(l, ruleID, subject, interval) && e.ruleID == rule.id
    requires 1 <= interval <= MAX_DEBOUNCE_SECONDS && (rule.id == ruleID ==> rule.debounceSeconds == interval)
    ensures Spaced(Fire(l, rule, e, fault), ruleID, subject, interval)
  {
    hide Spaced, Debounced, Insert;
    if rule.id == ruleID {
      DebounceIsExact(l.rows, rule, e);
    }
    if !fault.LookupFails? && !Debounced(l.rows, rule, e) {
      InsertKeepsSpaced(l, e, !fault.InsertFails?, ruleID, subject, interval);
    }
  }

  lemma {:induction false} FireAllKeepsSpaced(l: Ledger, rule: AlertRule, events: seq<Event>, faults: nat -> Fault,
                                              start: nat, ruleID: nat, subject: string, interval: int)
    requires Spaced(l, ruleID, subject, interval) && forall i | 0 <= i < |events| :: events[i].ruleID == rule.id
    requires 1 <= interval <= MAX_DEBOUNCE_SECONDS && (rule.id == ruleID ==> rule.debounceSeconds == interval)
    ensures Spaced(FireAll(l, rule, events, faults, start), ruleID, subject, interval)
  {
    hide Spaced, Fire;
    if events != [] {
      var last := |events| - 1;
      FireAllKeepsSpaced(l, rule, events[..last], faults, start, ruleID, subject, interval);
      FireKeepsSpaced(FireAll(l, rule, events[..last], faults, start), rule, events[last], faults(start + last),
                      ruleID, subject, interval);
    }
  }

  lemma {:induction false} OverNodesKeepsSpaced(t: Tally, rule: AlertRule, nodes: seq<Node>, now: int,
                                                offlineAfter: int, faults: nat -> Fault, ruleID: nat, subject: string,
                                                interval: int)
    requires Spaced(t.ledger, ruleID, subject, interval)
    requires 1 <= interval <= MAX_DEBOUNCE_SECONDS && (rule.id == ruleID ==> rule.debounceSeconds == interval)
    ensures Spaced(OverNodes(t, rule, nodes, now, offlineAfter, faults).ledger, ruleID, subject, interval)
  {
    hide Spaced, FireAll, EventsDue;
    if nodes != [] {
      var last := |nodes| - 1;
      OverNodesKeepsSpaced(t, rule, nodes[..last], now, offlineAfter, faults, ruleID, subject, interval);
      var before := OverNodes(t, rule, nodes[..last], now, offlineAfter, faults);
      DueForThisRule(rule, nodes[last], now, offlineAfter);
      FireAllKeepsSpaced(before.ledger, rule, EventsDue(rule, nodes[last], now, offlineAfter), faults, before.offered,
                         ruleID, subject, interval);
    }
  }

  ghost predicate HasInterval(rules: seq<AlertRule>, ruleID: nat, interval: int) {
    forall i | 0 <= i < |rules| && rules[i].id == ruleID :: rules[i].debounceSeconds == interval
  }

  lemma {:induction false} OverRulesKeepsSpaced(t: Tally, rules: seq<AlertRule>, nodes: seq<Node>, now: int,
                                                offlineAfter: int, faults: nat -> Fault, ruleID: nat, subject: string,
                                                interval: int)
    requires Spaced(t.ledger, ruleID, subject, interval)
    requires 1 <= interval <= MAX_DEBOUNCE_SECONDS && HasInterval(rules, ruleID, interval)
    ensures Spaced(OverRules(t, rules, nodes, now, offlineAfter, faults).ledger, ruleID, subject, interval)
  {
    hide Spaced, OverNodes;
    if rules != [] {
      var last := |rules| - 1;
      OverRulesKeepsSpaced(t, rules[..last], nodes, now, offlineAfter, faults, ruleID, subject, interval);
      if rules[last].enabled {
        OverNodesKeepsSpaced(OverRules(t, rules[..last], nodes, now, offlineAfter, faults), rules[last], nodes, now,
                             offlineAfter, faults, ruleID, subject, interval);
      }
    }
  }

  // ---------- What one evaluation does ----------

  ghost predicate Extends(l: Ledger, after: Ledger) {
    l.rows <= after.rows && l.firings <= after.firings
  }

  ghost predicate Tells(f: Firing, events: seq<Event>) {
    exists i :: 0 <= i < |events| && f.ruleID == events[i].ruleID && f.subject == TrimSpace(events[i].subjectKey)
                && f.at == events[i].createdAt
  }

  lemma FireAdds(l: Ledger, rule: AlertRule, e: Event, fault: Fault)
    ensures Extends(l, Fire(l, rule, e, fault))
    ensures var fired := Fire(l, rule, e, fault).firings;
            forall j | |l.firings| <= j < |fired| ::
              fired[j].ruleID == e.ruleID && fired[j].subject == TrimSpace(e.subjectKey) && fired[j].at == e.createdAt
  {
    hide Debounced, TrimSpace;
  }

  lemma {:induction false} FireAllAdds(l: Ledger, rule: AlertRule, events: seq<Event>, faults: nat -> Fault, start: nat)
    ensures Extends(l, FireAll(l, rule, events, faults, start))
    ensures var fired := FireAll(l, rule, events, faults, start).firings;
            forall j | |l.firings| <= j < |fired| :: Tells(fired[j], events)
  {
    hide Fire, TrimSpace;
    if events != [] {
      var last := |events| - 1;
      var before := FireAll(l, rule, events[..last], faults, start);
      FireAllAdds(l, rule, events[..last], faults, start);
      FireAdds(before, rule, events[last], faults(start + last));
      var fired := FireAll(l, rule, events, faults, start).firings;
      forall j | |l.firings| <= j < |fired| ensures Tells(fired[j], events) {
        if j < |before.firings| {
          assert fired[j] == before.firings[j] && Tells(before.firings[j], events[..last]);
          var i :| 0 <= i < last && fired[j].ruleID == events[..last][i].ruleID
                   && fired[j].subject == TrimSpace(events[..last][i].subjectKey)
                   && fired[j].at == events[..last][i].createdAt;
          assert events[i] == events[..last][i];
        } else {
          assert fired[j].ruleID == events[last].ruleID;
        }
      }
    }
  }

  /** The delivery is of an event that the rule finds due on the node. */
  ghost predicate IsFor(f: Firing, rule: AlertRule, node: Node, now: int, offlineAfter: int) {
    && f.ruleID == rule.id && f.at == now
    && exists subject :: IsDue(rule, node, now, offlineAfter, subject) && TrimSpace(subject) == f.subject
  }

  ghost predicate IsForSome(f: Firing, rule: AlertRule, nodes: seq<Node>, now: int, offlineAfter: int) {
    exists n :: 0 <= n < |nodes| && IsFor(f, rule, nodes[n], now, offlineAfter)
  }

  lemma TellsOfDue(f: Firing, rule: AlertRule, node: Node, now: int, offlineAfter: int)
    requires Tells(f, EventsDue(rule, node, now, offlineAfter))
    ensures IsFor(f, rule, node, now, offlineAfter)
  {
    hide EventsDue, IsDue, TrimSpace;
    var events := EventsDue(rule, node, now, offlineAfter);
    var i :| 0 <= i < |events| && f.ruleID == events[i].ruleID && f.subject == TrimSpace(events[i].subjectKey)
             && f.at == events[i].createdAt;
    DueForThisRule(rule, node, now, offlineAfter);
    assert Describes(events[i], rule, node, now) && Raises(events, events[i].subjectKey);
    DueExactly(rule, node, now, offlineAfter, events[i].subjectKey);
  }

  lemma {:induction false} OverNodesAdds(t: Tally, rule: AlertRule, nodes: seq<Node>, now: int, offlineAfter: int,
                                         faults: nat -> Fault)
    ensures var after := OverNodes(t, rule, nodes, now, offlineAfter, faults).ledger;
            && Extends(t.ledger, after)
            && forall j | |t.ledger.firings| <= j < |after.firings| ::
                 IsForSome(after.firings[j], rule, nodes, now, offlineAfter)
  {
    hide FireAll, EventsDue, IsFor, Tells;
    if nodes != [] {
      var last := |nodes| - 1;
      var before := OverNodes(t, rule, nodes[..last], now, offlineAfter, faults);
      var events := EventsDue(rule, nodes[last], now, offlineAfter);
      OverNodesAdds(t, rule, nodes[..last], now, offlineAfter, faults);
      FireAllAdds(before.ledger, rule, events, faults, before.offered);
      var after := OverNodes(t, rule, nodes, now, offlineAfter, faults).ledger;
      assert after == FireAll(before.ledger, rule, events, faults, before.offered);
      forall j | |t.ledger.firings| <= j < |after.firings|
        ensures IsForSome(after.firings[j], rule, nodes, now, offlineAfter)
      {
        if j < |before.ledger.firings| {
          assert after.firings[j] == before.ledger.firings[j];
          assert IsForSome(before.ledger.firings[j], rule, nodes[..last], now, offlineAfter);
          var n :| 0 <= n < last && IsFor(after.firings[j], rule, nodes[..last][n], now, offlineAfter);
          assert nodes[n] == nodes[..last][n];
        } else {
          TellsOfDue(after.firings[j], rule, nodes[last], now, offlineAfter);
        }
      }
    }
  }

  ghost predicate IsForAny(f: Firing, rules: seq<AlertRule>, nodes: seq<Node>, now: int, offlineAfter: int) {
    exists r :: 0 <= r < |rules| && rules[r].enabled && IsForSome(f, rules[r], nodes, now, offlineAfter)
  }

  lemma {:induction false} OverRulesAdds(t: Tally, rules: seq<AlertRule>, nodes: seq<Node>, now: int,
                                         offlineAfter: int, faults: nat -> Fault)
    ensures var after := OverRules(t, rules, nodes, now, offlineAfter, faults).ledger;
            && Extends(t.ledger, after)
            && forall j | |t.ledger.firings| <= j < |after.firings| ::
                 IsForAny(after.firings[j], rules, nodes, now, offlineAfter)
  {
    hide OverNodes, IsForSome;
    if rules != [] {
      var last := |rules| - 1;
      var before := OverRules(t, rules[..last], nodes, now, offlineAfter, faults);
      OverRulesAdds(t, rules[..last], nodes, now, offlineAfter, faults);
      OverNodesAdds(before, rules[last], nodes, now, offlineAfter, faults);
      var after := OverRules(t, rules, nodes, now, offlineAfter, faults).ledger;
      forall j | |t.ledger.firings| <= j < |after.firings|
        ensures IsForAny(after.firings[j], rules, nodes, now, offlineAfter)
      {
        if j < |before.ledger.firings| {
          assert after.firings[j] == before.ledger.firings[j];
          assert IsForAny(before.ledger.firings[j], rules[..last], nodes, now, offlineAfter);
          var r :| 0 <= r < last && rules[..last][r].enabled
                   && IsForSome(after.firings[j], rules[..last][r], nodes, now, offlineAfter);
          assert rules[r] == rules[..last][r];
        }
      }
    }
  }

  /** An evaluation keeps all it finds and delivers nothing but what an enabled rule finds due on some node, at the
      evaluation's time, whatever fails. A node counts as offline after 45 seconds unless configured otherwise. */
  lemma OnlyDueAlerts(l: Ledger, rules: seq<AlertRule>, nodes: seq<Node>, now: int, offlineAfter: int,
                      faults: nat -> Fault)
    ensures var after := Evaluate(l, rules, nodes, now, offlineAfter, faults);
            && l.rows <= after.rows && l.firings <= after.firings
            && forall j | |l.firings| <= j < |after.firings| ::
                 IsForAny(after.firings[j], rules, nodes, now,
                          if offlineAfter <= 0 then 45_000_000_000 else offlineAfter)
  {
    hide OverRules, IsForAny;
    OverRulesAdds(Tally(l, 0), rules, nodes, now, OfflineAfter(offlineAfter), faults);
  }

  lemma Alerted(l: Ledger, rule: AlertRule, e: Event)
    requires 1 <= rule.debounceSeconds <= MAX_DEBOUNCE_SECONDS && e.ruleID == rule.id
    ensures !ClearOf(Fire(l, rule, e, NoFault).rows, rule.id, TrimSpace(e.subjectKey), e.createdAt,
                     rule.debounceSeconds)
  {
    hide Fire, TrimSpace;
    FireExactly(l, rule, e, NoFault);
    var rows := Fire(l, rule, e, NoFault).rows;
    if ClearOf(l.rows, rule.id, TrimSpace(e.subjectKey), e.createdAt, rule.debounceSeconds) {
      assert About(rows[|l.rows|], rule.id, TrimSpace(e.subjectKey));
    }
  }

  lemma StaysAlerted(l: Ledger, after: Ledger, ruleID: nat, subject: string, at: int, interval: int)
    requires Extends(l, after) && !ClearOf(l.rows, ruleID, subject, at, interval)
    ensures !ClearOf(after.rows, ruleID, subject, at, interval)
  {
    var k :| 0 <= k < |l.rows| && About(l.rows[k], ruleID, subject)
             && !(at - l.rows[k].createdAt * 1_000_000_000 >= interval * 1_000_000_000);
    assert after.rows[k] == l.rows[k];
  }

  lemma {:induction false} FireAllAlerts(l: Ledger, rule: AlertRule, events: seq<Event>, start: nat, i: nat)
    requires 1 <= rule.debounceSeconds <= MAX_DEBOUNCE_SECONDS && i < |events| && events[i].ruleID == rule.id
    ensures !ClearOf(FireAll(l, rule, events, NoFaults, start).rows, rule.id, TrimSpace(events[i].subjectKey),
                     events[i].createdAt, rule.debounceSeconds)
  {
    hide Fire, TrimSpace, ClearOf;
    var last := |events| - 1;
    var before := FireAll(l, rule, events[..last], NoFaults, start);
    if i == last {
      Alerted(before, rule, events[i]);
    } else {
      FireAllAlerts(l, rule, events[..last], start, i);
      FireAdds(before, rule, events[last], NoFault);
      StaysAlerted(before, FireAll(l, rule, events, NoFaults, start), rule.id, TrimSpace(events[i].subjectKey),
                   events[i].createdAt, rule.debounceSeconds);
    }
  }

  lemma {:induction false} OverNodesAlerts(t: Tally, rule: AlertRule, nodes: seq<Node>, now: int, offlineAfter: int,
                                           n: nat, subject: string)
    requires 1 <= rule.debounceSeconds <= MAX_DEBOUNCE_SECONDS
    requires n < |nodes| && IsDue(rule, nodes[n], now, offlineAfter, subject)
    ensures !ClearOf(OverNodes(t, rule, nodes, now, offlineAfter, NoFaults).ledger.rows, rule.id, TrimSpace(subject),
                     now, rule.debounceSeconds)
  {
    hide FireAll, EventsDue, IsDue, ClearOf, TrimSpace;
    var last := |nodes| - 1;
    var before := OverNodes(t, rule, nodes[..last], now, offlineAfter, NoFaults);
    var events := EventsDue(rule, nodes[last], now, offlineAfter);
    if n == last {
      DueExactly(rule, nodes[n], now, offlineAfter, subject);
      var i :| 0 <= i < |events| && events[i].subjectKey == subject;
      DueForThisRule(rule, nodes[n], now, offlineAfter);
      assert Describes(events[i], rule, nodes[n], now);
      FireAllAlerts(before.ledger, rule, events, before.offered, i);
    } else {
      OverNodesAlerts(t, rule, nodes[..last], now, offlineAfter, n, subject);
      FireAllAdds(before.ledger, rule, events, NoFaults, before.offered);
      StaysAlerted(before.ledger, OverNodes(t, rule, nodes, now, offlineAfter, NoFaults).ledger, rule.id,
                   TrimSpace(subject), now, rule.debounceSeconds);
    }
  }

  lemma {:induction false} OverRulesAlerts(t: Tally, rules: seq<AlertRule>, nodes: seq<Node>, now: int,
                                           offlineAfter: int, r: nat, n: nat, subject: string)
    requires r < |rules| && rules[r].enabled && 1 <= rules[r].debounceSeconds <= MAX_DEBOUNCE_SECONDS
    requires n < |nodes| && IsDue(rules[r], nodes[n], now, offlineAfter, subject)
    ensures !ClearOf(OverRules(t, rules, nodes, now, offlineAfter, NoFaults).ledger.rows, rules[r].id,
                     TrimSpace(subject), now, rules[r].debounceSeconds)
  {
    hide OverNodes, IsDue, ClearOf, TrimSpace;
    var last := |rules| - 1;
    var before := OverRules(t, rules[..last], nodes, now, offlineAfter, NoFaults);
    if r == last {
      OverNodesAlerts(before, rules[r], nodes, now, offlineAfter, n, subject);
    } else {
      OverRulesAlerts(t, rules[..last], nodes, now, offlineAfter, r, n, subject);
      OverNodesAdds(before, rules[last], nodes, now, offlineAfter, NoFaults);
      StaysAlerted(before.ledger, OverRules(t, rules, nodes, now, offlineAfter, NoFaults).ledger, rules[r].id,
                   TrimSpace(subject), now, rules[r].debounceSeconds);
    }
  }

  /** No due alert is missed: after an evaluation without faults every subject that an enabled rule finds due has a
      stored event within the rule's interval. */
  lemma EveryDueAlert(l: Ledger, rules: seq<AlertRule>, nodes: seq<Node>, now: int, offlineAfter: int, r: nat, n: nat,
                      subject: string)
    requires r < |rules| && rules[r].enabled && 1 <= rules[r].debounceSeconds <= MAX_DEBOUNCE_SECONDS
    requires n < |nodes|
    requires IsDue(rules[r], nodes[n], now, if offlineAfter <= 0 then 45_000_000_000 else offlineAfter, subject)
    ensures var rows := Evaluate(l, rules, nodes, now, offlineAfter, NoFaults).rows;
            exists k :: 0 <= k < |rows| && About(rows[k], rules[r].id, TrimSpace(subject))
                        && now - rows[k].createdAt * 1_000_000_000 < rules[r].debounceSeconds * 1_000_000_000
  {
    hide OverRules, IsDue, TrimSpace;
    OverRulesAlerts(Tally(l, 0), rules, nodes, now, OfflineAfter(offlineAfter), r, n, subject);
  }

  // ---------- Runs ----------

  /** Evaluations and rule tests, each at whatever time its clock shows. */
  datatype Action =
    | EvaluateAll(rules: seq<AlertRule>, nodes: seq<Node>, now: int, offlineAfter: int, faults: nat -> Fault)
    | TestOne(rule: AlertRule, now: int, stored: bool)

  function Step(l: Ledger, a: Action): Ledger {
    match a
    case EvaluateAll(rules, nodes, now, offlineAfter, faults) => Evaluate(l, rules, nodes, now, offlineAfter, faults)
    case TestOne(rule, now, stored) => Test(l, rule, now, stored)
  }

  function Run(l: Ledger, schedule: seq<Action>): Ledger
    decreases |schedule|
  {
    if schedule == [] then l else Run(Step(l, schedule[0]), schedule[1..])
  }

  /** Every evaluation of the run finds the rule with the same debounce interval. */
  ghost predicate KeepsInterval(schedule: seq<Action>, ruleID: nat, interval: int) {
    forall i | 0 <= i < |schedule| && schedule[i].EvaluateAll? :: HasInterval(schedule[i].rules, ruleID, interval)
  }

  lemma {:induction false} RunKeepsSpaced(l: Ledger, schedule: seq<Action>, ruleID: nat, subject: string, interval: int)
    requires Spaced(l, ruleID, subject, interval) && KeepsInterval(schedule, ruleID, interval)
    requires 1 <= interval <= MAX_DEBOUNCE_SECONDS && subject != TestSubject(ruleID)
    ensures Spaced(Run(l, schedule), ruleID, subject, interval)
    decreases |schedule|
  {
    hide Spaced, OverRules, Insert, TrimSpace, HasInterval;
    if schedule != [] {
      match schedule[0] {
        case EvaluateAll(rules, nodes, now, offlineAfter, faults) =>
          assert HasInterval(schedule[0].rules, ruleID, interval);
          OverRulesKeepsSpaced(Tally(l, 0), rules, nodes, now, OfflineAfter(offlineAfter), faults, ruleID, subject,
                               interval);
        case TestOne(rule, now, stored) =>
          InsertKeepsSpaced(l, Event(rule.id, "test-node", "", "test:" + Decimal(rule.id), rule.kind, now), stored,
                            ruleID, subject, interval);
      }
      assert forall i | 0 <= i < |schedule| - 1 :: schedule[1..][i] == schedule[i + 1];
      RunKeepsSpaced(Step(l, schedule[0]), schedule[1..], ruleID, subject, interval);
    }
  }

  /** Alerts about one subject are debounced under any clock: the stored times are strictly increasing and at
      least the interval apart, and each delivery comes more than the interval less one second of real clock
      time after every earlier delivery that was stored. */
  lemma AlertsAreDebounced(schedule: seq<Action>, ruleID: nat, subject: string, interval: int)
    requires KeepsInterval(schedule, ruleID, interval)
    requires 1 <= interval <= MAX_DEBOUNCE_SECONDS && subject != TestSubject(ruleID)
    ensures var l := Run(Ledger([], []), schedule);
            && (forall i, j | 0 <= i < j < |l.rows| && About(l.rows[i], ruleID, subject)
                              && About(l.rows[j], ruleID, subject) ::
                  l.rows[i].createdAt < l.rows[i].createdAt + interval <= l.rows[j].createdAt)
            && (forall i, j | 0 <= i < j < |l.firings| && Concerns(l.firings[i], ruleID, subject)
                              && Concerns(l.firings[j], ruleID, subject) && l.firings[i].row.Some? ::
                  l.firings[j].at - l.firings[i].at > (interval - 1) * 1_000_000_000)
  {
    hide Run;
    RunKeepsSpaced(Ledger([], []), schedule, ruleID, subject, interval);
  }

  /** Above that interval the product of seconds and nanoseconds overflows, and alerts come too close. */
  lemma OverflowDefeatsDebounce(rule: AlertRule, node: Node) returns (schedule: seq<Action>)
    requires rule.enabled && rule.kind == COMMS_LOST && node.comms.Degraded?
    requires MAX_DEBOUNCE_SECONDS < rule.debounceSeconds <= MAX_INT64
    ensures KeepsInterval(schedule, rule.id, rule.debounceSeconds)
    ensures var rows := Run(Ledger([], []), schedule).rows;
            && |rows| == 2 && About(rows[0], rule.id, TrimSpace(node.id)) && About(rows[1], rule.id, TrimSpace(node.id))
            && rows[1].createdAt < rows[0].createdAt + rule.debounceSeconds
  {
    hide TrimSpace, Evaluate, Debounce, Fire, Run;
    var w := Debounce(rule.debounceSeconds);
    DebounceRange(rule.debounceSeconds);
    var now := if w < 0 then 0 else w;
    schedule := [EvaluateAll([rule], [node], 0, 0, NoFaults), EvaluateAll([rule], [node], now, 0, NoFaults)];
    RunTwo(Ledger([], []), schedule);
    var first := Event(rule.id, node.id, "", node.id, rule.kind, 0);
    var second := first.(createdAt := now);
    OneEvent(Ledger([], []), rule, node, 0);
    FirstFires(rule, first);
    var once := Fire(Ledger([], []), rule, first, NoFault);
    OneEvent(once, rule, node, now);
    SecondFires(once, rule, first, second);
  }

  lemma DebounceRange(seconds: int)
    ensures MIN_INT64 <= Debounce(seconds) <= MAX_INT64
  {
  }

  lemma RunTwo(l: Ledger, schedule: seq<Action>)
    requires |schedule| == 2
    ensures Run(l, schedule) == Step(Step(l, schedule[0]), schedule[1])
  {
    hide Step;
    var once := Step(l, schedule[0]);
    assert schedule[1..][0] == schedule[1] && schedule[1..][1..] == [];
    assert Run(once, schedule[1..]) == Run(Step(once, schedule[1]), []);
  }

  lemma FirstFires(rule: AlertRule, e: Event)
    ensures Fire(Ledger([], []), rule, e, NoFault).rows == [RowOf(e)]
  {
    hide TrimSpace;
  }

  lemma SecondFires(l: Ledger, rule: AlertRule, first: Event, e: Event)
    requires l.rows == [RowOf(first)] && first.ruleID == rule.id && first.subjectKey == e.subjectKey
    requires Sub(e.createdAt, first.createdAt / SECOND * SECOND) >= Debounce(rule.debounceSeconds)
    ensures Fire(l, rule, e, NoFault).rows == [RowOf(first), RowOf(e)]
  {
    hide TrimSpace, Debounce, Sub;
    assert l.rows[..0] == [] && l.rows[0] == RowOf(first);
  }

  /** An evaluation of one rule on one node that has lost contact. */
  lemma OneEvent(l: Ledger, rule: AlertRule, node: Node, now: int)
    requires rule.enabled && rule.kind == COMMS_LOST && node.comms.Degraded?
    ensures Evaluate(l, [rule], [node], now, 0, NoFaults) ==
            Fire(l, rule, Event(rule.id, node.id, "", node.id, rule.kind, now), NoFault)
  {
    hide Fire, OverNodes, FireAll;
    var e := Event(rule.id, node.id, "", node.id, rule.kind, now);
    var after := OfflineAfter(0);
    assert NODE_OFFLINE[0] != COMMS_LOST[0];
    assert EventsDue(rule, node, now, after) == [e];
    OneFiring(l, rule, e);
    OneNode(l, rule, node, now, after, e);
    OneRule(Tally(l, 0), rule, [node], now, after);
  }

  lemma OneRule(t: Tally, rule: AlertRule, nodes: seq<Node>, now: int, after: int)
    requires rule.enabled
    ensures OverRules(t, [rule], nodes, now, after, NoFaults) == OverNodes(t, rule, nodes, now, after, NoFaults)
  {
    hide OverNodes;
    assert [rule][..0] == [];
  }

  lemma OneFiring(l: Ledger, rule: AlertRule, e: Event)
    ensures FireAll(l, rule, [e], NoFaults, 0) == Fire(l, rule, e, NoFault)
  {
    hide Fire;
    assert [e][..0] == [];
  }

  lemma OneNode(l: Ledger, rule: AlertRule, node: Node, now: int, after: int, e: Event)
    requires EventsDue(rule, node, now, after) == [e]
    ensures OverNodes(Tally(l, 0), rule, [node], now, after, NoFaults).ledger == FireAll(l, rule, [e], NoFaults, 0)
  {
    hide FireAll, EventsDue;
    assert [node][..0] == [];
  }

  /** Remark: a delivery whose event could not be stored does not hold back the next one: the same event, offered again
      at once, is delivered again. */
  lemma UnstoredAlertRepeats(l: Ledger, rule: AlertRule, e: Event)
    requires !Debounced(l.rows, rule, e)
    ensures var once := Fire(l, rule, e, InsertFails);
            && |once.firings| == |l.firings| + 1
            && var again := once.firings[|l.firings|].(row := Some(|l.rows|));
               Fire(once, rule, e, NoFault).firings == once.firings + [again]
  {
    hide Debounced, TrimSpace;
  }
}
