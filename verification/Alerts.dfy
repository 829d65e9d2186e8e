/** The alert instances of one rule: periodic evaluations, acknowledgements and manual resolves, each
    in a transaction of its own. */
module Alerts {
  import opened Common

  type Time = int

  datatype Status = Pending | Firing | Acknowledged | Resolved

  datatype Instance = Instance(
    fingerprint: string, status: Status, firstSeen: Time, firedAt: Option<Time>, lastNotified: Option<Time>,
    suppressed: bool)

  datatype Phase = FiringNotice | RecoveryNotice
  datatype Notice = Notice(instance: nat, phase: Phase, at: Time)

  datatype Rule = Rule(kind: string, forDuration: int, cooldown: int)

  function Fingerprint(kind: string, key: string): string { kind + "/" + key }

  // ----- decisions --------------------------------------------------------------------------

  datatype Decision = Decision(next: Status, notify: bool, changed: bool)

  function DecideObserved(i: Instance, rule: Rule, now: Time): Decision
  {
    match i.status {
      case Pending =>
        if now - i.firstSeen >= rule.forDuration then Decision(Firing, true, true) else Decision(Pending, false, false)
      case Firing =>
        Decision(Firing, i.lastNotified.None? || now - i.lastNotified.value >= rule.cooldown, false)
      case Acknowledged => Decision(Acknowledged, false, false)
      case Resolved => Decision(Resolved, false, false)
    }
  }

  function DecideMissing(status: Status): (Status, bool)
  {
    match status {
      case Pending => (Resolved, false)
      case Firing => (Resolved, true)
      case Acknowledged => (Resolved, true)
      case Resolved => (Resolved, false)
    }
  }

  predicate CanAcknowledge(status: Status) { status == Firing || status == Acknowledged }

  predicate CanResolve(status: Status) { status != Resolved }

  // ----- what every run keeps ---------------------------------------------------------------

  predicate Active(i: Instance) { i.status != Resolved }

  predicate Suppressing(i: Instance) { i.status == Resolved && i.suppressed }

  predicate Live(i: Instance) { Active(i) || Suppressing(i) }

  /** No fingerprint has two instances that are active or suppress it. */
  ghost predicate Unique(rows: seq<Instance>)
  {
    forall i, j :: 0 <= i < j < |rows| && Live(rows[i]) && Live(rows[j]) ==> rows[i].fingerprint != rows[j].fingerprint
  }

  ghost predicate Sound(i: Instance)
  {
    && (i.suppressed ==> i.status == Resolved)
    && (i.status == Firing || i.status == Acknowledged ==> i.firedAt.Some?)
    && (i.status == Pending ==> i.firedAt.None? && i.lastNotified.None?)
  }

  /** Every notice belongs to an instance that fired, and the firing notices of one that is still
      active are no later than its last. */
  ghost predicate Logged(rows: seq<Instance>, notices: seq<Notice>)
  {
    forall n :: 0 <= n < |notices| ==> notices[n].instance < |rows| && Fits(notices[n], rows[notices[n].instance])
  }

  ghost predicate Fits(n: Notice, i: Instance)
  {
    && i.firedAt.Some? && (n.phase == RecoveryNotice ==> i.status == Resolved)
    && (n.phase == FiringNotice && i.status != Resolved ==> i.lastNotified.Some? && n.at <= i.lastNotified.value)
  }

  /** Firing notices of one instance are at least the cooldown apart. */
  ghost predicate Spaced(notices: seq<Notice>, cooldown: int)
  {
    forall m, n :: 0 <= m < n < |notices| ==> Apart(notices[m], notices[n], cooldown)
  }

  predicate Apart(m: Notice, n: Notice, cooldown: int)
  {
    m.instance == n.instance && m.phase == FiringNotice && n.phase == FiringNotice ==> n.at - m.at >= cooldown
  }

  /** The instance has a notice of this phase and time. */
  ghost predicate Has(notices: seq<Notice>, k: nat, phase: Phase, at: Time)
  {
    exists n :: 0 <= n < |notices| && notices[n] == Notice(k, phase, at)
  }

  /** What an instance that is still active has as its last notice is a firing notice that was sent. */
  ghost predicate Backed(rows: seq<Instance>, notices: seq<Notice>)
  {
    forall k :: 0 <= k < |rows| && rows[k].status != Resolved && rows[k].lastNotified.Some? ==>
                Has(notices, k, FiringNotice, rows[k].lastNotified.value)
  }

  ghost predicate Good(rows: seq<Instance>, notices: seq<Notice>, cooldown: int)
  {
    && Unique(rows) && (forall i :: 0 <= i < |rows| ==> Sound(rows[i]))
    && Logged(rows, notices) && Spaced(notices, cooldown) && Backed(rows, notices)
  }

  lemma HasMore(notices: seq<Notice>, notice: Notice)
    ensures Has(notices + [notice], notice.instance, notice.phase, notice.at)
    ensures forall k, phase, at :: Has(notices, k, phase, at) ==> Has(notices + [notice], k, phase, at)
  {
    var more := notices + [notice];
    assert more[|notices|] == notice;
    forall k, phase, at | Has(notices, k, phase, at)
      ensures Has(more, k, phase, at)
    {
      var n :| 0 <= n < |notices| && notices[n] == Notice(k, phase, at);
      assert more[n] == notices[n];
    }
  }

  /** The reminders of an instance do not come faster than the cooldown. */
  lemma FiringApart(rows: seq<Instance>, notices: seq<Notice>, cooldown: int, m: nat, n: nat)
    requires Good(rows, notices, cooldown) && m < n < |notices|
    requires notices[m].instance == notices[n].instance
    requires notices[m].phase == FiringNotice && notices[n].phase == FiringNotice
    ensures notices[n].at - notices[m].at >= cooldown
  {
    assert Apart(notices[m], notices[n], cooldown);
  }

  /** A change of one row that does not make it live, does not undo its firing or its last notice,
      and does not leave the resolved state. */
  ghost predicate Moves(i: Instance, j: Instance)
  {
    && j.fingerprint == i.fingerprint && Sound(j) && (Live(j) ==> Live(i))
    && (i.firedAt.Some? ==> j.firedAt.Some?) && (i.status == Resolved ==> j.status == Resolved)
    && (j.lastNotified == i.lastNotified || j.status == Resolved)
  }

  lemma MoveKeeps(rows: seq<Instance>, notices: seq<Notice>, cooldown: int, k: nat, j: Instance)
    requires Good(rows, notices, cooldown) && k < |rows| && Moves(rows[k], j)
    ensures Good(rows[k := j], notices, cooldown)
  {
  }

  lemma AddKeeps(rows: seq<Instance>, notices: seq<Notice>, cooldown: int, j: Instance)
    requires Good(rows, notices, cooldown) && Sound(j) && j.lastNotified == None
    requires forall i :: 0 <= i < |rows| && Live(rows[i]) ==> rows[i].fingerprint != j.fingerprint
    ensures Good(rows + [j], notices, cooldown)
  {
  }

  function Notified(i: Instance, at: Time): Instance { i.(lastNotified := Some(at)) }

  lemma RecoveryKeeps(rows: seq<Instance>, notices: seq<Notice>, cooldown: int, k: nat, at: Time)
    requires Good(rows, notices, cooldown) && k < |rows| && rows[k].firedAt.Some? && rows[k].status == Resolved
    ensures Good(rows[k := Notified(rows[k], at)], notices + [Notice(k, RecoveryNotice, at)], cooldown)
  {
    MoveKeeps(rows, notices, cooldown, k, Notified(rows[k], at));
    HasMore(notices, Notice(k, RecoveryNotice, at));
  }

  /** A firing notice goes out no sooner than the cooldown after the last one. */
  lemma FiringKeeps(rows: seq<Instance>, notices: seq<Notice>, cooldown: int, k: nat, at: Time)
    requires Good(rows, notices, cooldown) && cooldown >= 0 && k < |rows| && rows[k].status == Firing
    requires rows[k].lastNotified.None? || at - rows[k].lastNotified.value >= cooldown
    ensures Good(rows[k := Notified(rows[k], at)], notices + [Notice(k, FiringNotice, at)], cooldown)
  {
    var rows', notices' := rows[k := Notified(rows[k], at)], notices + [Notice(k, FiringNotice, at)];
    forall n | 0 <= n < |notices'|
      ensures notices'[n].instance < |rows'| && Fits(notices'[n], rows'[notices'[n].instance])
    {
      if n < |notices| {
        assert Fits(notices[n], rows[notices[n].instance]);
      }
    }
    forall m, n | 0 <= m < n < |notices'|
      ensures Apart(notices'[m], notices'[n], cooldown)
    {
      assert Fits(notices[m], rows[notices[m].instance]);
    }
    assert Unique(rows') && forall i :: 0 <= i < |rows'| ==> Sound(rows'[i]);
    HasMore(notices, Notice(k, FiringNotice, at));
  }

  // ----- the snapshot an evaluation starts from ---------------------------------------------

  predicate Kind(i: Instance, suppressing: bool) { if suppressing then Suppressing(i) else Active(i) }

  /** The map has exactly the rows of this kind among the first n, by fingerprint. */
  ghost predicate Indexes(m: map<string, nat>, rows: seq<Instance>, n: nat, suppressing: bool)
  {
    && n <= |rows|
    && (forall f :: f in m ==> m[f] < n && Kind(rows[m[f]], suppressing) && rows[m[f]].fingerprint == f)
    && (forall i :: 0 <= i < n && Kind(rows[i], suppressing) ==>
          rows[i].fingerprint in m && m[rows[i].fingerprint] == i)
  }

  lemma IndexesStep(m: map<string, nat>, rows: seq<Instance>, n: nat, suppressing: bool)
    requires Unique(rows) && Indexes(m, rows, n, suppressing) && n < |rows|
    ensures Kind(rows[n], suppressing) ==> Indexes(m[rows[n].fingerprint := n], rows, n + 1, suppressing)
    ensures !Kind(rows[n], suppressing) ==> Indexes(m, rows, n + 1, suppressing)
  {
    forall i | 0 <= i < n && Kind(rows[i], suppressing) && Kind(rows[n], suppressing)
      ensures rows[i].fingerprint != rows[n].fingerprint
    {
      assert Live(rows[i]) && Live(rows[n]);
    }
  }

  lemma IndexesApart(active: map<string, nat>, suppressed: map<string, nat>, rows: seq<Instance>)
    requires Unique(rows) && Indexes(active, rows, |rows|, false) && Indexes(suppressed, rows, |rows|, true)
    ensures active.Keys !! suppressed.Keys
  {
    forall f | f in active && f in suppressed
      ensures false
    {
      assert Live(rows[active[f]]) && Live(rows[suppressed[f]]);
    }
  }

  /** Sorts the rows into active ones and ones that suppress their fingerprint. */
  method Snapshot(rows: seq<Instance>) returns (active: map<string, nat>, suppressed: map<string, nat>)
    requires Unique(rows)
    ensures Indexes(active, rows, |rows|, false) && Indexes(suppressed, rows, |rows|, true)
    ensures active.Keys !! suppressed.Keys
  {
    hide Unique;
    active, suppressed := map[], map[];
    var i := 0;
    while i < |rows|
      invariant i <= |rows| && Indexes(active, rows, i, false) && Indexes(suppressed, rows, i, true)
    {
      hide Indexes;
      IndexesStep(active, rows, i, false);
      IndexesStep(suppressed, rows, i, true);
      if rows[i].status == Resolved && rows[i].suppressed {
        suppressed := suppressed[rows[i].fingerprint := i];
      } else if rows[i].status != Resolved {
        active := active[rows[i].fingerprint := i];
      }
      i := i + 1;
    }
    IndexesApart(active, suppressed, rows);
  }

  // ----- what an evaluation does to a row ---------------------------------------------------

  function Observed(i: Instance, rule: Rule, now: Time): Instance
  {
    var d := DecideObserved(i, rule, now);
    i.(status := d.next, firedAt := if d.changed then Some(now) else i.firedAt)
  }

  /** The row after an evaluation that saw its condition or not; until the second half of the
      evaluation, rows whose condition was not seen are still as they were. */
  function Evaluated(i: Instance, seen: bool, cleared: bool, rule: Rule, now: Time): Instance
  {
    if Active(i) then (if seen then Observed(i, rule, now) else if cleared then i.(status := Resolved) else i)
    else if Suppressing(i) && !seen && cleared then i.(suppressed := false)
    else i
  }

  /** A notice changes nothing but the time of the last one. */
  ghost predicate SameBut(i: Instance, j: Instance)
  {
    i == j.(lastNotified := i.lastNotified)
  }

  /** A row an evaluation has created: its condition was seen, and nothing was live for it before. */
  ghost predicate Created(i: Instance, before: seq<Instance>, seen: set<string>, rule: Rule, now: Time)
  {
    && i.fingerprint in seen && SameBut(i, Observed(Instance(i.fingerprint, Pending, now, None, None, false), rule,
                                                    now))
    && NothingLive(before, i.fingerprint)
  }

  ghost predicate NothingLive(rows: seq<Instance>, fingerprint: string)
  {
    forall k :: 0 <= k < |rows| && Live(rows[k]) ==> rows[k].fingerprint != fingerprint
  }

  ghost predicate HasNew(rows: seq<Instance>, n: nat, fingerprint: string)
  {
    exists k :: n <= k < |rows| && rows[k].fingerprint == fingerprint
  }

  /** How far an evaluation has come: every row seen so far has been looked at, active rows up to a
      point and suppressing rows up to another have been cleared, and the rest is new. */
  ghost predicate Progress(before: seq<Instance>, rows: seq<Instance>, seen: set<string>, a: nat, b: nat, rule: Rule,
                           now: Time)
  {
    && |before| <= |rows|
    && (forall k :: 0 <= k < |before| ==>
          SameBut(rows[k], Evaluated(before[k], before[k].fingerprint in seen,
                                     k < (if Active(before[k]) then a else b), rule, now)))
    && (forall k :: |before| <= k < |rows| ==> Created(rows[k], before, seen, rule, now))
    && (forall f :: f in seen && NothingLive(before, f) ==> HasNew(rows, |before|, f))
  }

  // ----- what an evaluation sends -----------------------------------------------------------

  /** The notice a row is due: of firing when its condition was seen and its state calls for it, of
      recovery when it had fired and its condition was not seen. */
  function DuePhase(before: seq<Instance>, k: nat, seen: set<string>, a: nat, rule: Rule, now: Time): Option<Phase>
  {
    if k >= |before| then if rule.forDuration <= 0 then Some(FiringNotice) else None
    else if !Active(before[k]) then None
    else if before[k].fingerprint in seen
    then if DecideObserved(before[k], rule, now).notify then Some(FiringNotice) else None
    else if k < a && DecideMissing(before[k].status).1 then Some(RecoveryNotice)
    else None
  }

  /** Unless the rule is muted, the notices sent so far are exactly those due, one for each row, and
      the row has their time; a row without one has the time it had. */
  ghost predicate Sends(before: seq<Instance>, rows: seq<Instance>, sent: seq<Notice>, seen: set<string>, a: nat,
                        rule: Rule, now: Time, muted: bool)
  {
    && |before| <= |rows| && (muted ==> sent == [])
    && (forall n :: 0 <= n < |sent| ==>
          && sent[n].instance < |rows| && rows[sent[n].instance].lastNotified == Some(sent[n].at)
          && DuePhase(before, sent[n].instance, seen, a, rule, now) == Some(sent[n].phase))
    && (forall m, n :: 0 <= m < n < |sent| ==> sent[m].instance != sent[n].instance)
    && (forall k :: 0 <= k < |rows| && !Told(sent, k) ==>
          && (muted || DuePhase(before, k, seen, a, rule, now) == None)
          && rows[k].lastNotified == (if k < |before| then before[k].lastNotified else None))
  }

  ghost predicate Told(sent: seq<Notice>, k: nat)
  {
    exists n :: 0 <= n < |sent| && sent[n].instance == k
  }

  lemma ToldMore(sent: seq<Notice>, notice: Notice)
    ensures forall k :: Told(sent + [notice], k) <==> Told(sent, k) || notice.instance == k
  {
    var more := sent + [notice];
    assert more[|sent|] == notice;
    forall k | Told(sent, k)
      ensures Told(more, k)
    {
      var n :| 0 <= n < |sent| && sent[n].instance == k;
      assert more[n] == sent[n];
    }
  }

  lemma Untold(before: seq<Instance>, rows: seq<Instance>, sent: seq<Notice>, seen: set<string>, a: nat, rule: Rule,
               now: Time, muted: bool, k: nat)
    requires Sends(before, rows, sent, seen, a, rule, now, muted) && k < |before|
    requires DuePhase(before, k, seen, a, rule, now) == None
    ensures !Told(sent, k) && rows[k].lastNotified == before[k].lastNotified
  {
  }

  /** A step after which the same rows are due. */
  lemma SendsNothing(before: seq<Instance>, rows: seq<Instance>, sent: seq<Notice>, seen: set<string>, a: nat,
                     rule: Rule, now: Time, muted: bool, rows': seq<Instance>, seen': set<string>, a': nat)
    requires Sends(before, rows, sent, seen, a, rule, now, muted) && |rows| <= |rows'|
    requires forall k :: 0 <= k < |rows| ==> rows'[k].lastNotified == rows[k].lastNotified
    requires forall k :: |rows| <= k < |rows'| ==> rows'[k].lastNotified == None
    requires forall k :: 0 <= k < |rows'| ==>
               || (k < |rows| && DuePhase(before, k, seen', a', rule, now) == DuePhase(before, k, seen, a, rule, now))
               || (!Told(sent, k) && (muted || DuePhase(before, k, seen', a', rule, now) == None))
    ensures Sends(before, rows', sent, seen', a', rule, now, muted)
  {
    hide DuePhase;
    forall n | 0 <= n < |sent|
      ensures Told(sent, sent[n].instance)
    {
    }
  }

  /** A step after which one more row is due, and told. */
  lemma SendsOne(before: seq<Instance>, rows: seq<Instance>, sent: seq<Notice>, seen: set<string>, a: nat, rule: Rule,
                 now: Time, rows': seq<Instance>, seen': set<string>, a': nat, notice: Notice)
    requires Sends(before, rows, sent, seen, a, rule, now, false) && |rows| <= |rows'|
    requires var k := notice.instance;
             && k < |rows'| && (k >= |rows| || DuePhase(before, k, seen, a, rule, now) == None)
             && DuePhase(before, k, seen', a', rule, now) == Some(notice.phase)
             && rows'[k].lastNotified == Some(notice.at)
    requires forall k :: 0 <= k < |rows'| && k != notice.instance ==>
               && k < |rows| && rows'[k].lastNotified == rows[k].lastNotified
               && DuePhase(before, k, seen', a', rule, now) == DuePhase(before, k, seen, a, rule, now)
    ensures Sends(before, rows', sent + [notice], seen', a', rule, now, false)
  {
    hide DuePhase;
    ToldMore(sent, notice);
    forall n | 0 <= n < |sent|
      ensures sent[n].instance != notice.instance
    {
    }
  }

  // ----- what an evaluation comes to, in the fields of the row before -----------------------

  /** The notices sent for a row have this phase. */
  ghost predicate Gets(sent: seq<Notice>, k: nat, phase: Phase)
  {
    exists n :: 0 <= n < |sent| && sent[n].instance == k && sent[n].phase == phase
  }

  /** Where an evaluation takes a row, whose condition is there or not. A pending row fires when its
      condition has been seen for long enough; a row whose condition is gone is resolved, or released
      if it was suppressing it. Unless muted, there is a firing notice exactly when the row begins to
      fire, or fires on and was never notified or not for the cooldown, and a recovery notice exactly
      when it had fired and its condition is gone. */
  ghost predicate Turns(i: Instance, here: bool, j: Instance, fired: bool, recovered: bool, rule: Rule, now: Time,
                        muted: bool)
  {
    var held := i.status == Pending && now - i.firstSeen >= rule.forDuration;
    var unheard := i.lastNotified.None? || now - i.lastNotified.value >= rule.cooldown;
    && (fired <==> !muted && here && (held || (i.status == Firing && unheard)))
    && (recovered <==> !muted && !here && (i.status == Firing || i.status == Acknowledged))
    && (j.status == Pending <==> here && i.status == Pending && !held)
    && (j.status == Firing <==> here && (i.status == Firing || held))
    && (j.status == Acknowledged <==> here && i.status == Acknowledged)
    && j.suppressed == (i.suppressed && (i.status == Resolved ==> here))
    && j.firedAt == (if here && held then Some(now) else i.firedAt)
    && (!fired && !recovered ==> j.lastNotified == i.lastNotified)
    && j.fingerprint == i.fingerprint && j.firstSeen == i.firstSeen
  }

  lemma RowAfter(before: seq<Instance>, rows: seq<Instance>, sent: seq<Notice>, seen: set<string>, rule: Rule,
                 now: Time, muted: bool, k: nat)
    requires Progress(before, rows, seen, |before|, |before|, rule, now) && k < |before|
    requires Sends(before, rows, sent, seen, |before|, rule, now, muted)
    ensures Turns(before[k], before[k].fingerprint in seen, rows[k], Gets(sent, k, FiringNotice),
                  Gets(sent, k, RecoveryNotice), rule, now, muted)
  {
    if Told(sent, k) {
      var n :| 0 <= n < |sent| && sent[n].instance == k;
      assert Gets(sent, k, sent[n].phase);
    }
  }

  /** A row that an evaluation has created: its condition is there, and it fires at once if nothing
      has to be waited for, with a notice unless muted. */
  ghost predicate Starts(j: Instance, here: bool, fired: bool, recovered: bool, rule: Rule, now: Time, muted: bool)
  {
    && here && j.firstSeen == now && !j.suppressed && j.status == (if rule.forDuration <= 0 then Firing else Pending)
    && j.firedAt == (if rule.forDuration <= 0 then Some(now) else None)
    && (fired <==> !muted && rule.forDuration <= 0) && !recovered && (!fired ==> j.lastNotified == None)
  }

  lemma NewRowAfter(before: seq<Instance>, rows: seq<Instance>, sent: seq<Notice>, seen: set<string>, rule: Rule,
                    now: Time, muted: bool, k: nat)
    requires Progress(before, rows, seen, |before|, |before|, rule, now) && |before| <= k < |rows|
    requires Sends(before, rows, sent, seen, |before|, rule, now, muted)
    ensures Starts(rows[k], rows[k].fingerprint in seen, Gets(sent, k, FiringNotice), Gets(sent, k, RecoveryNotice),
                   rule, now, muted)
  {
    if Told(sent, k) {
      var n :| 0 <= n < |sent| && sent[n].instance == k;
      assert Gets(sent, k, sent[n].phase);
    }
  }

  /** What an evaluation comes to, row by row: every row there was has taken its turn, and the new
      rows are for exactly the conditions seen that nothing was live for. */
  ghost predicate Comes(before: seq<Instance>, rows: seq<Instance>, sent: seq<Notice>, seen: set<string>, rule: Rule,
                        now: Time, muted: bool)
  {
    && |before| <= |rows|
    && (forall k :: 0 <= k < |before| ==>
          Turns(before[k], before[k].fingerprint in seen, rows[k], Gets(sent, k, FiringNotice),
                Gets(sent, k, RecoveryNotice), rule, now, muted))
    && (forall k :: |before| <= k < |rows| ==>
          && Starts(rows[k], rows[k].fingerprint in seen, Gets(sent, k, FiringNotice),
                    Gets(sent, k, RecoveryNotice), rule, now, muted)
          && NothingLive(before, rows[k].fingerprint))
    && (forall f :: f in seen && NothingLive(before, f) ==> HasNew(rows, |before|, f))
  }

  lemma EvaluationComes(before: seq<Instance>, rows: seq<Instance>, sent: seq<Notice>, seen: set<string>, rule: Rule,
                        now: Time, muted: bool)
    requires Progress(before, rows, seen, |before|, |before|, rule, now)
    requires Sends(before, rows, sent, seen, |before|, rule, now, muted)
    ensures Comes(before, rows, sent, seen, rule, now, muted)
  {
    hide Sends, Gets, Turns, Starts, Evaluated;
    forall k | 0 <= k < |before|
      ensures Turns(before[k], before[k].fingerprint in seen, rows[k], Gets(sent, k, FiringNotice),
                    Gets(sent, k, RecoveryNotice), rule, now, muted)
    {
      RowAfter(before, rows, sent, seen, rule, now, muted, k);
    }
    forall k | |before| <= k < |rows|
      ensures Starts(rows[k], rows[k].fingerprint in seen, Gets(sent, k, FiringNotice),
                     Gets(sent, k, RecoveryNotice), rule, now, muted)
    {
      NewRowAfter(before, rows, sent, seen, rule, now, muted, k);
    }
  }
}
