/** Evaluations, acknowledgements and manual resolves of one rule, and their runs. */
module AlertEngine {
  import opened Common
  import opened Alerts

  // ----- steps of an evaluation, on rows ----------------------------------------------------

  /** Marking a row notified is not visible to the progress of an evaluation. */
  lemma ProgressNotified(before: seq<Instance>, rows: seq<Instance>, seen: set<string>, a: nat, b: nat, rule: Rule,
                         now: Time, k: nat, at: Time)
    requires Progress(before, rows, seen, a, b, rule, now) && k < |rows|
    ensures Progress(before, rows[k := Notified(rows[k], at)], seen, a, b, rule, now)
  {
    hide Evaluated, Observed, NothingLive;
    var rows' := rows[k := Notified(rows[k], at)];
    forall f | f in seen && NothingLive(before, f)
      ensures HasNew(rows', |before|, f)
    {
      var i :| |before| <= i < |rows| && rows[i].fingerprint == f;
      assert rows'[i].fingerprint == f;
    }
  }

  /** A seen condition of an active row. */
  lemma ProgressActive(before: seq<Instance>, rows: seq<Instance>, seen: set<string>, rule: Rule, now: Time, k: nat)
    requires Progress(before, rows, seen, 0, 0, rule, now) && Unique(before)
    requires k < |before| && Active(before[k]) && before[k].fingerprint !in seen
    ensures SameBut(rows[k], before[k])
    ensures Progress(before, rows[k := Observed(rows[k], rule, now)], seen + {before[k].fingerprint}, 0, 0, rule, now)
  {
    var f := before[k].fingerprint;
    var rows' := rows[k := Observed(rows[k], rule, now)];
    assert Live(before[k]);
    forall i | 0 <= i < |before|
      ensures SameBut(rows'[i], Evaluated(before[i], before[i].fingerprint in seen + {f}, false, rule, now))
    {
      if i != k && Live(before[i]) {
        assert before[i].fingerprint != f;
      }
    }
    forall g | g in seen + {f} && NothingLive(before, g)
      ensures HasNew(rows', |before|, g)
    {
      var i :| |before| <= i < |rows| && rows[i].fingerprint == g;
      assert rows'[i] == rows[i];
    }
  }

  /** A seen condition that a manual resolve suppresses. */
  lemma ProgressSuppressed(before: seq<Instance>, rows: seq<Instance>, seen: set<string>, rule: Rule, now: Time, k: nat)
    requires Progress(before, rows, seen, 0, 0, rule, now) && Unique(before)
    requires k < |before| && Suppressing(before[k])
    ensures Progress(before, rows, seen + {before[k].fingerprint}, 0, 0, rule, now)
  {
    var f := before[k].fingerprint;
    assert Live(before[k]);
    forall i | 0 <= i < |before|
      ensures SameBut(rows[i], Evaluated(before[i], before[i].fingerprint in seen + {f}, false, rule, now))
    {
      if i != k && Live(before[i]) {
        assert before[i].fingerprint != f;
      }
    }
  }

  /** A seen condition that is new. */
  lemma ProgressNew(before: seq<Instance>, rows: seq<Instance>, seen: set<string>, rule: Rule, now: Time, f: string)
    requires Progress(before, rows, seen, 0, 0, rule, now) && NothingLive(before, f)
    ensures Progress(before, rows + [Observed(Instance(f, Pending, now, None, None, false), rule, now)], seen + {f},
                     0, 0, rule, now)
  {
    var rows' := rows + [Observed(Instance(f, Pending, now, None, None, false), rule, now)];
    forall i | 0 <= i < |before|
      ensures SameBut(rows'[i], Evaluated(before[i], before[i].fingerprint in seen + {f}, false, rule, now))
    {
      if Live(before[i]) {
        assert before[i].fingerprint != f;
      }
    }
    forall g | g in seen + {f} && NothingLive(before, g)
      ensures HasNew(rows', |before|, g)
    {
      if g == f {
        assert rows'[|rows|].fingerprint == f;
      } else {
        var i :| |before| <= i < |rows| && rows[i].fingerprint == g;
        assert rows'[i] == rows[i];
      }
    }
  }

  /** No row an evaluation has left live has a fingerprint that was not live and has not been seen. */
  lemma StillNothingLive(before: seq<Instance>, rows: seq<Instance>, seen: set<string>, rule: Rule, now: Time,
                         f: string)
    requires Progress(before, rows, seen, 0, 0, rule, now) && NothingLive(before, f) && f !in seen
    ensures NothingLive(rows, f)
  {
    forall k | 0 <= k < |rows| && Live(rows[k])
      ensures rows[k].fingerprint != f
    {
      if k < |before| {
        assert SameBut(rows[k], Evaluated(before[k], before[k].fingerprint in seen, false, rule, now));
        assert Live(before[k]);
      }
    }
  }

  lemma ClearActive(before: seq<Instance>, rows: seq<Instance>, seen: set<string>, rule: Rule, now: Time, k: nat)
    requires Progress(before, rows, seen, k, 0, rule, now) && k < |before|
    ensures var gone := Active(before[k]) && before[k].fingerprint !in seen;
            && (gone ==> SameBut(rows[k], before[k]))
            && Progress(before, if gone then rows[k := rows[k].(status := Resolved)] else rows, seen, k + 1, 0, rule,
                        now)
  {
    var gone := Active(before[k]) && before[k].fingerprint !in seen;
    var rows' := if gone then rows[k := rows[k].(status := Resolved)] else rows;
    SameNew(rows, rows', |before|);
  }

  lemma ClearSuppressed(before: seq<Instance>, rows: seq<Instance>, seen: set<string>, rule: Rule, now: Time, k: nat)
    requires Progress(before, rows, seen, |before|, k, rule, now) && k < |before|
    ensures var gone := Suppressing(before[k]) && before[k].fingerprint !in seen;
            && (gone ==> SameBut(rows[k], before[k]))
            && Progress(before, if gone then rows[k := rows[k].(suppressed := false)] else rows, seen, |before|,
                        k + 1, rule, now)
  {
    var gone := Suppressing(before[k]) && before[k].fingerprint !in seen;
    var rows' := if gone then rows[k := rows[k].(suppressed := false)] else rows;
    SameNew(rows, rows', |before|);
  }

  lemma SameNew(rows: seq<Instance>, rows': seq<Instance>, n: nat)
    requires |rows| == |rows'| && forall k :: n <= k < |rows| ==> rows'[k] == rows[k]
    ensures forall f :: HasNew(rows, n, f) ==> HasNew(rows', n, f)
  {
    forall f | HasNew(rows, n, f)
      ensures HasNew(rows', n, f)
    {
      var i :| n <= i < |rows| && rows[i].fingerprint == f;
      assert rows'[i] == rows[i];
    }
  }

  // ----- steps of an evaluation, on notices -------------------------------------------------

  lemma SendsActive(before: seq<Instance>, rows: seq<Instance>, sent: seq<Notice>, seen: set<string>, rule: Rule,
                    now: Time, muted: bool, k: nat, at: Time)
    requires Sends(before, rows, sent, seen, 0, rule, now, muted) && Unique(before)
    requires k < |before| && Active(before[k]) && before[k].fingerprint !in seen && SameBut(rows[k], before[k])
    ensures var rows', seen' := rows[k := Observed(rows[k], rule, now)], seen + {before[k].fingerprint};
            if DecideObserved(rows[k], rule, now).notify && !muted
            then Sends(before, rows'[k := Notified(rows'[k], at)], sent + [Notice(k, FiringNotice, at)], seen', 0,
                       rule, now, muted)
            else Sends(before, rows', sent, seen', 0, rule, now, muted)
  {
    hide Sends, DecideObserved;
    Untold(before, rows, sent, seen, 0, rule, now, muted, k);
    AtLeastSent(before, rows, sent, seen, 0, rule, now, muted);
    var rows', seen' := rows[k := Observed(rows[k], rule, now)], seen + {before[k].fingerprint};
    forall i | 0 <= i < |rows| && i != k
      ensures DuePhase(before, i, seen', 0, rule, now) == DuePhase(before, i, seen, 0, rule, now)
    {
      assert i < |before| && Active(before[i]) ==> Live(before[i]) && Live(before[k]);
    }
    if DecideObserved(rows[k], rule, now).notify && !muted {
      SendsOne(before, rows, sent, seen, 0, rule, now, rows'[k := Notified(rows'[k], at)], seen', 0,
               Notice(k, FiringNotice, at));
    } else {
      SendsNothing(before, rows, sent, seen, 0, rule, now, muted, rows', seen', 0);
    }
  }

  lemma SendsNew(before: seq<Instance>, rows: seq<Instance>, sent: seq<Notice>, seen: set<string>, rule: Rule,
                 now: Time, muted: bool, f: string, at: Time)
    requires Sends(before, rows, sent, seen, 0, rule, now, muted) && NothingLive(before, f)
    ensures var added := Instance(f, Pending, now, None, None, false);
            var rows', k := rows + [Observed(added, rule, now)], |rows|;
            if DecideObserved(added, rule, now).notify && !muted
            then Sends(before, rows'[k := Notified(rows'[k], at)], sent + [Notice(k, FiringNotice, at)], seen + {f},
                       0, rule, now, muted)
            else Sends(before, rows', sent, seen + {f}, 0, rule, now, muted)
  {
    hide Sends;
    AtLeastSent(before, rows, sent, seen, 0, rule, now, muted);
    var added := Instance(f, Pending, now, None, None, false);
    var rows', k := rows + [Observed(added, rule, now)], |rows|;
    NotTold(before, rows, sent, seen, 0, rule, now, muted, k);
    forall i | 0 <= i < |rows|
      ensures DuePhase(before, i, seen + {f}, 0, rule, now) == DuePhase(before, i, seen, 0, rule, now)
    {
      assert i < |before| && Active(before[i]) ==> Live(before[i]);
    }
    if DecideObserved(added, rule, now).notify && !muted {
      SendsOne(before, rows, sent, seen, 0, rule, now, rows'[k := Notified(rows'[k], at)], seen + {f}, 0,
               Notice(k, FiringNotice, at));
    } else {
      SendsNothing(before, rows, sent, seen, 0, rule, now, muted, rows', seen + {f}, 0);
    }
  }

  lemma SendsSuppressed(before: seq<Instance>, rows: seq<Instance>, sent: seq<Notice>, seen: set<string>, rule: Rule,
                        now: Time, muted: bool, k: nat)
    requires Sends(before, rows, sent, seen, 0, rule, now, muted) && Unique(before) && k < |before|
    requires Suppressing(before[k])
    ensures Sends(before, rows, sent, seen + {before[k].fingerprint}, 0, rule, now, muted)
  {
    hide Sends;
    AtLeastSent(before, rows, sent, seen, 0, rule, now, muted);
    var seen' := seen + {before[k].fingerprint};
    forall i | 0 <= i < |rows|
      ensures DuePhase(before, i, seen', 0, rule, now) == DuePhase(before, i, seen, 0, rule, now)
    {
      assert i < |before| && Active(before[i]) ==> Live(before[i]) && Live(before[k]);
    }
    SendsNothing(before, rows, sent, seen, 0, rule, now, muted, rows, seen', 0);
  }

  lemma SendsCleared(before: seq<Instance>, rows: seq<Instance>, sent: seq<Notice>, seen: set<string>, rule: Rule,
                     now: Time, muted: bool, k: nat, at: Time)
    requires Sends(before, rows, sent, seen, k, rule, now, muted) && k < |before|
    ensures var gone := Active(before[k]) && before[k].fingerprint !in seen;
            && (!gone ==> Sends(before, rows, sent, seen, k + 1, rule, now, muted))
            && (gone && SameBut(rows[k], before[k]) ==>
                  var rows' := rows[k := rows[k].(status := Resolved)];
                  if DecideMissing(rows[k].status).1 && !muted
                  then Sends(before, rows'[k := Notified(rows'[k], at)], sent + [Notice(k, RecoveryNotice, at)], seen,
                             k + 1, rule, now, muted)
                  else Sends(before, rows', sent, seen, k + 1, rule, now, muted))
  {
    hide Sends, DecideObserved;
    AtLeastSent(before, rows, sent, seen, k, rule, now, muted);
    var gone := Active(before[k]) && before[k].fingerprint !in seen;
    var rows' := rows[k := rows[k].(status := Resolved)];
    if !gone {
      SendsNothing(before, rows, sent, seen, k, rule, now, muted, rows, seen, k + 1);
    } else if SameBut(rows[k], before[k]) {
      Untold(before, rows, sent, seen, k, rule, now, muted, k);
      if DecideMissing(rows[k].status).1 && !muted {
        SendsOne(before, rows, sent, seen, k, rule, now, rows'[k := Notified(rows'[k], at)], seen, k + 1,
                 Notice(k, RecoveryNotice, at));
      } else {
        SendsNothing(before, rows, sent, seen, k, rule, now, muted, rows', seen, k + 1);
      }
    }
  }

  lemma SendsRearmed(before: seq<Instance>, rows: seq<Instance>, sent: seq<Notice>, seen: set<string>, rule: Rule,
                     now: Time, muted: bool, k: nat)
    requires Sends(before, rows, sent, seen, |before|, rule, now, muted) && k < |before|
    ensures Sends(before, rows[k := rows[k].(suppressed := false)], sent, seen, |before|, rule, now, muted)
  {
    hide Sends, DuePhase;
    AtLeastSent(before, rows, sent, seen, |before|, rule, now, muted);
    SendsNothing(before, rows, sent, seen, |before|, rule, now, muted, rows[k := rows[k].(suppressed := false)], seen,
                 |before|);
  }

  lemma AtLeastSent(before: seq<Instance>, rows: seq<Instance>, sent: seq<Notice>, seen: set<string>, a: nat,
                    rule: Rule, now: Time, muted: bool)
    requires Sends(before, rows, sent, seen, a, rule, now, muted)
    ensures |before| <= |rows|
  {
  }

  lemma NotTold(before: seq<Instance>, rows: seq<Instance>, sent: seq<Notice>, seen: set<string>, a: nat, rule: Rule,
                now: Time, muted: bool, k: nat)
    requires Sends(before, rows, sent, seen, a, rule, now, muted) && k >= |rows|
    ensures !Told(sent, k)
  {
  }

  lemma NothingSent(rows: seq<Instance>, rule: Rule, now: Time, muted: bool)
    ensures Sends(rows, rows, [], {}, 0, rule, now, muted)
  {
  }

  /** Rows keep their places and fingerprints. */
  ghost predicate SameNames(rows: seq<Instance>, rows': seq<Instance>)
  {
    |rows| <= |rows'| && forall k :: 0 <= k < |rows| ==> rows'[k].fingerprint == rows[k].fingerprint
  }

  /** A notice carries the time at which the clock was read for it: a firing notice when its
      observation was looked at, a recovery notice when its row was cleared. */
  ghost predicate OnTime(rows: seq<Instance>, notice: Notice, kind: string, keys: seq<string>, clock: nat -> Time)
  {
    && notice.instance < |rows|
    && match notice.phase
       case FiringNotice => exists i :: 0 <= i < |keys| && Looked(rows[notice.instance], notice, kind, keys, clock, i)
       case RecoveryNotice => notice.at == clock(|keys| + notice.instance)
  }

  ghost predicate Looked(row: Instance, notice: Notice, kind: string, keys: seq<string>, clock: nat -> Time, i: nat)
    requires i < |keys|
  {
    row.fingerprint == Fingerprint(kind, keys[i]) && notice.at == clock(i)
  }

  ghost predicate AllOnTime(rows: seq<Instance>, sent: seq<Notice>, kind: string, keys: seq<string>, clock: nat -> Time)
  {
    forall n :: 0 <= n < |sent| ==> OnTime(rows, sent[n], kind, keys, clock)
  }

  lemma NothingLate(rows: seq<Instance>, kind: string, keys: seq<string>, clock: nat -> Time)
    ensures AllOnTime(rows, [], kind, keys, clock)
  {
  }

  lemma OnTimeStays(rows: seq<Instance>, rows': seq<Instance>, sent: seq<Notice>, sent': seq<Notice>, kind: string,
                    keys: seq<string>, clock: nat -> Time)
    requires AllOnTime(rows, sent, kind, keys, clock) && SameNames(rows, rows') && sent <= sent'
    requires forall n :: |sent| <= n < |sent'| ==> OnTime(rows', sent'[n], kind, keys, clock)
    ensures AllOnTime(rows', sent', kind, keys, clock)
  {
    forall n | 0 <= n < |sent'| ensures OnTime(rows', sent'[n], kind, keys, clock) {
      if n < |sent| {
        assert OnTime(rows, sent[n], kind, keys, clock);
        assert sent'[n] == sent[n];
        if sent[n].phase == FiringNotice {
          var i :| 0 <= i < |keys| && Looked(rows[sent[n].instance], sent[n], kind, keys, clock, i);
          assert Looked(rows'[sent[n].instance], sent[n], kind, keys, clock, i);
        }
      }
    }
  }

  lemma FiringOnTime(rows: seq<Instance>, rows': seq<Instance>, notices: seq<Notice>, notices': seq<Notice>, start: nat,
                     kind: string, keys: seq<string>, clock: nat -> Time, i: nat)
    requires start <= |notices| && i < |keys| && SameNames(rows, rows') && notices <= notices'
    requires AllOnTime(rows, notices[start..], kind, keys, clock) && |notices'| <= |notices| + 1
    requires |notices'| > |notices| ==>
               var n := notices'[|notices|];
               && n.phase == FiringNotice && n.at == clock(i) && n.instance < |rows'|
               && rows'[n.instance].fingerprint == Fingerprint(kind, keys[i])
    ensures AllOnTime(rows', notices'[start..], kind, keys, clock)
  {
    var sent, sent' := notices[start..], notices'[start..];
    forall n | |sent| <= n < |sent'| ensures OnTime(rows', sent'[n], kind, keys, clock) {
      assert Looked(rows'[sent'[n].instance], sent'[n], kind, keys, clock, i);
    }
    OnTimeStays(rows, rows', sent, sent', kind, keys, clock);
  }

  lemma RecoveryOnTime(rows: seq<Instance>, rows': seq<Instance>, notices: seq<Notice>, notices': seq<Notice>,
                       start: nat, kind: string, keys: seq<string>, clock: nat -> Time, k: nat)
    requires start <= |notices| && SameNames(rows, rows') && notices <= notices'
    requires AllOnTime(rows, notices[start..], kind, keys, clock) && |notices'| <= |notices| + 1
    requires |notices'| > |notices| ==>
               var n := notices'[|notices|];
               n.phase == RecoveryNotice && n.instance == k < |rows'| && n.at == clock(|keys| + k)
    ensures AllOnTime(rows', notices'[start..], kind, keys, clock)
  {
    OnTimeStays(rows, rows', notices[start..], notices'[start..], kind, keys, clock);
  }

  // ----- no silence -------------------------------------------------------------------------

  /** Every firing instance among those seen has a firing notice that is new or less than a cooldown
      old. */
  ghost predicate Reminded(rows: seq<Instance>, notices: seq<Notice>, rule: Rule, seen: set<string>, now: Time)
  {
    forall k :: 0 <= k < |rows| && rows[k].status == Firing && rows[k].fingerprint in seen ==>
                Recent(notices, k, rule.cooldown, now)
  }

  ghost predicate Recent(notices: seq<Notice>, k: nat, cooldown: int, now: Time)
  {
    exists n :: 0 <= n < |notices| && notices[n].instance == k && notices[n].phase == FiringNotice &&
                (notices[n].at >= now || now - notices[n].at < cooldown)
  }

  /** The notices of an evaluation are not older than it. */
  lemma NotBefore(rows: seq<Instance>, sent: seq<Notice>, kind: string, keys: seq<string>, clock: nat -> Time,
                  now: Time, n: nat)
    requires AllOnTime(rows, sent, kind, keys, clock) && n < |sent| && forall i :: clock(i) >= now
    ensures sent[n].at >= now
  {
    assert OnTime(rows, sent[n], kind, keys, clock);
  }

  /** After an evaluation that is not muted. */
  lemma NoSilence(before: seq<Instance>, rows: seq<Instance>, notices: seq<Notice>, start: nat, rule: Rule,
                  keys: seq<string>, now: Time, clock: nat -> Time)
    requires start <= |notices| && Good(rows, notices, rule.cooldown) && forall i :: clock(i) >= now
    requires Progress(before, rows, SeenIn(rule.kind, keys), |before|, |before|, rule, now)
    requires Sends(before, rows, notices[start..], SeenIn(rule.kind, keys), |before|, rule, now, false)
    requires AllOnTime(rows, notices[start..], rule.kind, keys, clock)
    ensures Reminded(rows, notices, rule, SeenIn(rule.kind, keys), now)
  {
    hide Progress, Sends, AllOnTime, Good;
    var seen, sent := SeenIn(rule.kind, keys), notices[start..];
    forall k | 0 <= k < |rows| && rows[k].status == Firing && rows[k].fingerprint in seen
      ensures Recent(notices, k, rule.cooldown, now)
    {
      if Gets(sent, k, FiringNotice) {
        var n :| 0 <= n < |sent| && sent[n].instance == k && sent[n].phase == FiringNotice;
        NotBefore(rows, sent, rule.kind, keys, clock, now, n);
        assert notices[start + n] == sent[n];
      } else {
        StillRecent(before, rows, notices, sent, seen, rule, now, k);
      }
    }
  }

  /** A row that fires and is sent nothing was sent something within the cooldown. */
  lemma StillRecent(before: seq<Instance>, rows: seq<Instance>, notices: seq<Notice>, sent: seq<Notice>,
                    seen: set<string>, rule: Rule, now: Time, k: nat)
    requires Good(rows, notices, rule.cooldown) && k < |rows| && rows[k].status == Firing
    requires rows[k].fingerprint in seen && !Gets(sent, k, FiringNotice)
    requires Progress(before, rows, seen, |before|, |before|, rule, now)
    requires Sends(before, rows, sent, seen, |before|, rule, now, false)
    ensures Recent(notices, k, rule.cooldown, now)
  {
    if k >= |before| {
      NewRowAfter(before, rows, sent, seen, rule, now, false, k);
    } else {
      RowAfter(before, rows, sent, seen, rule, now, false, k);
      var n :| 0 <= n < |notices| && notices[n] == Notice(k, FiringNotice, rows[k].lastNotified.value);
      assert notices[n].instance == k;
    }
  }

  // ----- the table --------------------------------------------------------------------------

  class Table {
    const rule: Rule
    var rows: seq<Instance>
    var notices: seq<Notice>

    ghost predicate Valid()
      reads this
    {
      rule.cooldown >= 0 && Good(rows, notices, rule.cooldown)
    }

    /** At most one notice of this kind and time has been added. */
    ghost predicate Adds(before: seq<Notice>, phase: Phase, at: Time)
      reads this
    {
      || notices == before
      || (|notices| == |before| + 1 && before <= notices && notices[|before|].phase == phase
          && notices[|before|].at == at && notices[|before|].instance < |rows|)
    }

    constructor (rule: Rule)
      requires rule.cooldown >= 0
      ensures Valid() && this.rule == rule && rows == [] && notices == []
    {
      this.rule, rows, notices := rule, [], [];
    }

    /** One observation: an active row is looked at, a suppressed one left alone, and a new condition
        gets a row. */
    method Observe(f: string, now: Time, at: Time, muted: bool, active: map<string, nat>, suppressed: map<string, nat>,
                   ghost before: seq<Instance>, ghost seen: set<string>, ghost start: nat)
      requires Valid() && at >= now && f !in seen && Unique(before) && start <= |notices|
      requires Indexes(active, before, |before|, false) && Indexes(suppressed, before, |before|, true)
      requires Progress(before, rows, seen, 0, 0, rule, now)
      requires Sends(before, rows, notices[start..], seen, 0, rule, now, muted)
      modifies this
      ensures Valid() && Progress(before, rows, seen + {f}, 0, 0, rule, now) && old(notices) <= notices
      ensures Sends(before, rows, notices[start..], seen + {f}, 0, rule, now, muted)
      ensures SameNames(old(rows), rows) && Adds(old(notices), FiringNotice, at)
      ensures |notices| > |old(notices)| ==> rows[notices[|old(notices)|].instance].fingerprint == f
    {
      hide Good, Progress, Unique, Sends;
      ghost var sent := notices[start..];
      var k: nat;
      ghost var target: seq<Instance>;
      if f in active {
        k := active[f];
        ProgressActive(before, rows, seen, rule, now, k);
        AtLeast(before, rows, seen, 0, 0, rule, now);
        SendsActive(before, rows, sent, seen, rule, now, muted, k, at);
        target := rows[k := Observed(rows[k], rule, now)];
      } else if f in suppressed {
        ProgressSuppressed(before, rows, seen, rule, now, suppressed[f]);
        SendsSuppressed(before, rows, sent, seen, rule, now, muted, suppressed[f]);
        return;
      } else {
        NotIndexed(active, suppressed, before, f);
        ProgressNew(before, rows, seen, rule, now, f);
        SendsNew(before, rows, sent, seen, rule, now, muted, f, at);
        StillNothingLive(before, rows, seen, rule, now, f);
        AddKeeps(rows, notices, rule.cooldown, Instance(f, Pending, now, None, None, false));
        target := rows + [Observed(Instance(f, Pending, now, None, None, false), rule, now)];
        rows := rows + [Instance(f, Pending, now, None, None, false)];
        k := |rows| - 1;
      }
      var decision := DecideObserved(rows[k], rule, now);
      ghost var observed := Observed(rows[k], rule, now);
      SoundRow(rows, notices, rule.cooldown, k);
      MoveKeeps(rows, notices, rule.cooldown, k, observed);
      if decision.changed {
        rows := rows[k := rows[k].(status := decision.next, firedAt := Some(now))];
      }
      assert rows == target;
      if decision.notify && !muted {
        ProgressNotified(before, rows, seen + {f}, 0, 0, rule, now, k, at);
        FiringKeeps(rows, notices, rule.cooldown, k, at);
        assert (notices + [Notice(k, FiringNotice, at)])[start..] == sent + [Notice(k, FiringNotice, at)];
        rows, notices := rows[k := Notified(rows[k], at)], notices + [Notice(k, FiringNotice, at)];
      }
    }

    /** The second half of an evaluation for a row: if its condition was active and is gone, it is
        resolved, with a recovery notice if it had fired. */
    method ClearIfGone(k: nat, active: bool, wasSeen: bool, at: Time, muted: bool, ghost before: seq<Instance>,
                       ghost seen: set<string>, ghost now: Time, ghost start: nat)
      requires Valid() && k < |before| && active == Active(before[k]) && wasSeen == (before[k].fingerprint in seen)
      requires Progress(before, rows, seen, k, 0, rule, now) && start <= |notices|
      requires Sends(before, rows, notices[start..], seen, k, rule, now, muted)
      modifies this
      ensures Valid() && Progress(before, rows, seen, k + 1, 0, rule, now) && old(notices) <= notices
      ensures Sends(before, rows, notices[start..], seen, k + 1, rule, now, muted)
      ensures SameNames(old(rows), rows) && Adds(old(notices), RecoveryNotice, at)
      ensures |notices| > |old(notices)| ==> notices[|old(notices)|].instance == k
    {
      hide Good, Progress, Sends;
      ghost var sent := notices[start..];
      SendsCleared(before, rows, sent, seen, rule, now, muted, k, at);
      ClearActive(before, rows, seen, rule, now, k);
      if !active || wasSeen {
        return;
      }
      AtLeast(before, rows, seen, k, 0, rule, now);
      var (next, recovered) := DecideMissing(rows[k].status);
      SoundRow(rows, notices, rule.cooldown, k);
      MoveKeeps(rows, notices, rule.cooldown, k, rows[k].(status := Resolved));
      rows := rows[k := rows[k].(status := next)];
      if recovered && !muted {
        ProgressNotified(before, rows, seen, k + 1, 0, rule, now, k, at);
        RecoveryKeeps(rows, notices, rule.cooldown, k, at);
        assert (notices + [Notice(k, RecoveryNotice, at)])[start..] == sent + [Notice(k, RecoveryNotice, at)];
        rows, notices := rows[k := Notified(rows[k], at)], notices + [Notice(k, RecoveryNotice, at)];
      }
    }

    /** A suppressed condition that is gone may come back as a new instance. */
    method RearmIfGone(k: nat, suppressing: bool, wasSeen: bool, ghost before: seq<Instance>, ghost seen: set<string>,
                       ghost now: Time, ghost muted: bool, ghost sent: seq<Notice>)
      requires Valid() && k < |before| && suppressing == Suppressing(before[k])
      requires wasSeen == (before[k].fingerprint in seen)
      requires Progress(before, rows, seen, |before|, k, rule, now)
      requires Sends(before, rows, sent, seen, |before|, rule, now, muted)
      modifies this`rows
      ensures Valid() && Progress(before, rows, seen, |before|, k + 1, rule, now)
      ensures Sends(before, rows, sent, seen, |before|, rule, now, muted) && SameNames(old(rows), rows)
    {
      hide Good, Progress, Sends;
      SendsRearmed(before, rows, sent, seen, rule, now, muted, k);
      ClearSuppressed(before, rows, seen, rule, now, k);
      if !suppressing || wasSeen {
        return;
      }
      AtLeast(before, rows, seen, |before|, k, rule, now);
      SoundRow(rows, notices, rule.cooldown, k);
      MoveKeeps(rows, notices, rule.cooldown, k, rows[k].(suppressed := false));
      rows := rows[k := rows[k].(suppressed := false)];
    }

    /** An evaluation: every row goes where its condition takes it, exactly the conditions seen for
        which nothing was live get a new row, and unless muted exactly the rows that are due a notice
        get one, with the time at which the clock is read for it. */
    method Evaluate(keys: seq<string>, now: Time, clock: nat -> Time, muted: bool)
      requires Valid() && (forall i, j :: 0 <= i < j < |keys| ==> keys[i] != keys[j]) && forall i :: clock(i) >= now
      modifies this
      ensures Valid() && old(notices) <= notices
      ensures Progress(old(rows), rows, SeenIn(rule.kind, keys), old(|rows|), old(|rows|), rule, now)
      ensures Sends(old(rows), rows, notices[old(|notices|)..], SeenIn(rule.kind, keys), old(|rows|), rule, now, muted)
      ensures AllOnTime(rows, notices[old(|notices|)..], rule.kind, keys, clock)
      ensures Comes(old(rows), rows, notices[old(|notices|)..], SeenIn(rule.kind, keys), rule, now, muted)
      ensures !muted ==> Reminded(rows, notices, rule, SeenIn(rule.kind, keys), now)
    {
      hide Good, Progress, Unique, Indexes, Sends, AllOnTime, SameNames, Comes, Reminded;
      ghost var start := |notices|;
      ghost var before := rows;
      UniqueRows(rows, notices, rule.cooldown);
      var snapshot := rows;
      var active, suppressed := Snapshot(rows);
      var seen: set<string> := {};
      Begins(rows, rule, now);
      NothingSent(rows, rule, now, muted);
      NothingLate(rows, rule.kind, keys, clock);
      assert notices[start..] == [];
      var i := 0;
      while i < |keys|
        invariant i <= |keys| && seen == SeenIn(rule.kind, keys[..i])
        invariant Valid() && Progress(before, rows, seen, 0, 0, rule, now) && old(notices) <= notices
        invariant Sends(before, rows, notices[start..], seen, 0, rule, now, muted)
        invariant AllOnTime(rows, notices[start..], rule.kind, keys, clock)
      {
        ghost var rows0, notices0 := rows, notices;
        var f := Fingerprint(rule.kind, keys[i]);
        NotYetSeen(rule.kind, keys, i);
        Observe(f, now, clock(i), muted, active, suppressed, before, seen, start);
        FiringOnTime(rows0, rows, notices0, notices, start, rule.kind, keys, clock, i);
        seen := seen + {f};
        i := i + 1;
      }
      assert keys[..|keys|] == keys;
      var k := 0;
      while k < |snapshot|
        invariant k <= |snapshot| && Valid() && Progress(before, rows, seen, k, 0, rule, now) && old(notices) <= notices
        invariant Sends(before, rows, notices[start..], seen, k, rule, now, muted)
        invariant AllOnTime(rows, notices[start..], rule.kind, keys, clock)
      {
        ghost var rows0, notices0 := rows, notices;
        ClearIfGone(k, Active(snapshot[k]), snapshot[k].fingerprint in seen, clock(|keys| + k), muted, before, seen,
                    now, start);
        RecoveryOnTime(rows0, rows, notices0, notices, start, rule.kind, keys, clock, k);
        k := k + 1;
      }
      k := 0;
      while k < |snapshot|
        invariant k <= |snapshot| && Valid() && Progress(before, rows, seen, |before|, k, rule, now)
        invariant old(notices) <= notices
        invariant Sends(before, rows, notices[start..], seen, |before|, rule, now, muted)
        invariant AllOnTime(rows, notices[start..], rule.kind, keys, clock)
      {
        ghost var rows0 := rows;
        RearmIfGone(k, Suppressing(snapshot[k]), snapshot[k].fingerprint in seen, before, seen, now, muted,
                    notices[start..]);
        OnTimeStays(rows0, rows, notices[start..], notices[start..], rule.kind, keys, clock);
        k := k + 1;
      }
      EvaluationComes(before, rows, notices[start..], seen, rule, now, muted);
      if !muted {
        NoSilence(before, rows, notices, start, rule, keys, now, clock);
      }
    }

    /** An operator takes over a firing alert. */
    method Acknowledge(id: nat) returns (outcome: Outcome)
      requires Valid()
      modifies this`rows
      ensures Valid()
      ensures outcome == if id >= old(|rows|) then NotFound
                         else if CanAcknowledge(old(rows)[id].status) then Done else Illegal
      ensures rows == if outcome == Done then old(rows)[id := old(rows)[id].(status := Acknowledged)] else old(rows)
    {
      if id >= |rows| {
        return NotFound;
      }
      if !CanAcknowledge(rows[id].status) {
        return Illegal;
      }
      MoveKeeps(rows, notices, rule.cooldown, id, rows[id].(status := Acknowledged));
      rows := rows[id := rows[id].(status := Acknowledged)];
      return Done;
    }

    /** An operator closes an alert; its condition is suppressed until an evaluation misses it. */
    method Resolve(id: nat) returns (outcome: Outcome)
      requires Valid()
      modifies this`rows
      ensures Valid()
      ensures outcome == if id >= old(|rows|) then NotFound
                         else if CanResolve(old(rows)[id].status) then Done else Illegal
      ensures rows == if outcome == Done then old(rows)[id := old(rows)[id].(status := Resolved, suppressed := true)]
                      else old(rows)
    {
      if id >= |rows| {
        return NotFound;
      }
      if !CanResolve(rows[id].status) {
        return Illegal;
      }
      MoveKeeps(rows, notices, rule.cooldown, id, rows[id].(status := Resolved, suppressed := true));
      rows := rows[id := rows[id].(status := Resolved, suppressed := true)];
      return Done;
    }
  }

  datatype Outcome = Done | NotFound | Illegal

  ghost function SeenIn(kind: string, keys: seq<string>): set<string>
  {
    set k | k in keys :: Fingerprint(kind, k)
  }

  lemma NotYetSeen(kind: string, keys: seq<string>, i: nat)
    requires i < |keys| && forall a, b :: 0 <= a < b < |keys| ==> keys[a] != keys[b]
    ensures Fingerprint(kind, keys[i]) !in SeenIn(kind, keys[..i])
    ensures SeenIn(kind, keys[..i + 1]) == SeenIn(kind, keys[..i]) + {Fingerprint(kind, keys[i])}
  {
    assert keys[..i + 1] == keys[..i] + [keys[i]];
    forall k | k in keys[..i]
      ensures Fingerprint(kind, k) != Fingerprint(kind, keys[i])
    {
      var n := |kind + "/"|;
      assert Fingerprint(kind, k)[n..] == k && Fingerprint(kind, keys[i])[n..] == keys[i];
    }
  }

  lemma UniqueRows(rows: seq<Instance>, notices: seq<Notice>, cooldown: int)
    requires Good(rows, notices, cooldown)
    ensures Unique(rows)
  {
  }

  lemma Begins(rows: seq<Instance>, rule: Rule, now: Time)
    ensures Progress(rows, rows, {}, 0, 0, rule, now)
  {
  }

  lemma AtLeast(before: seq<Instance>, rows: seq<Instance>, seen: set<string>, a: nat, b: nat, rule: Rule, now: Time)
    requires Progress(before, rows, seen, a, b, rule, now)
    ensures |before| <= |rows|
  {
  }

  lemma NotIndexed(active: map<string, nat>, suppressed: map<string, nat>, rows: seq<Instance>, f: string)
    requires Indexes(active, rows, |rows|, false) && Indexes(suppressed, rows, |rows|, true)
    requires f !in active && f !in suppressed
    ensures NothingLive(rows, f)
  {
    forall k | 0 <= k < |rows| && Live(rows[k])
      ensures rows[k].fingerprint != f
    {
      assert Kind(rows[k], false) || Kind(rows[k], true);
    }
  }

  lemma SoundRow(rows: seq<Instance>, notices: seq<Notice>, cooldown: int, k: nat)
    requires Good(rows, notices, cooldown) && k < |rows|
    ensures Sound(rows[k])
  {
  }

  // ----- runs -------------------------------------------------------------------------------

  datatype Event =
    | Evaluation(keys: seq<string>, now: Time, clock: nat -> Time, muted: bool)
    | Acknowledgement(id: nat)
    | ManualResolve(id: nat)

  /** Observations of one evaluation have distinct keys, and the clock does not run backwards in it. */
  ghost predicate Callable(e: Event)
  {
    e.Evaluation? ==>
      && (forall i, j :: 0 <= i < j < |e.keys| ==> e.keys[i] != e.keys[j]) && forall i :: e.clock(i) >= e.now
  }

  /** Rows stay in place with their fingerprints, and the resolved state is final. */
  ghost predicate ResolvedIsFinal(before: seq<Instance>, rows: seq<Instance>)
  {
    && |before| <= |rows|
    && forall k :: 0 <= k < |before| ==>
         rows[k].fingerprint == before[k].fingerprint && (before[k].status == Resolved ==> rows[k].status == Resolved)
  }

  /** A manual resolve holds the fingerprint back. */
  ghost predicate HeldBack(rows: seq<Instance>, f: string)
  {
    exists k :: 0 <= k < |rows| && Suppressing(rows[k]) && rows[k].fingerprint == f
  }

  /** No evaluation misses the fingerprint. */
  ghost predicate NeverMissed(rule: Rule, events: seq<Event>, f: string)
  {
    forall i :: 0 <= i < |events| && events[i].Evaluation? ==> f in SeenIn(rule.kind, events[i].keys)
  }

  ghost predicate NoNewRow(before: seq<Instance>, rows: seq<Instance>, f: string)
  {
    forall k :: |before| <= k < |rows| ==> rows[k].fingerprint != f
  }

  lemma EvaluationIsFinal(before: seq<Instance>, rows: seq<Instance>, seen: set<string>, rule: Rule, now: Time)
    requires Progress(before, rows, seen, |before|, |before|, rule, now)
    ensures ResolvedIsFinal(before, rows)
    ensures forall f :: f in seen && HeldBack(before, f) ==> HeldBack(rows, f) && NoNewRow(before, rows, f)
  {
    forall f | f in seen && HeldBack(before, f)
      ensures HeldBack(rows, f) && NoNewRow(before, rows, f)
    {
      var k :| 0 <= k < |before| && Suppressing(before[k]) && before[k].fingerprint == f;
      assert Suppressing(rows[k]) && Live(before[k]);
    }
  }

  lemma ChangeIsFinal(rows: seq<Instance>, k: nat, j: Instance)
    requires k < |rows| && Moves(rows[k], j) && (Suppressing(rows[k]) ==> j == rows[k])
    ensures ResolvedIsFinal(rows, rows[k := j])
    ensures forall f :: HeldBack(rows, f) ==> HeldBack(rows[k := j], f) && NoNewRow(rows, rows[k := j], f)
  {
    forall f | HeldBack(rows, f)
      ensures HeldBack(rows[k := j], f)
    {
      var i :| 0 <= i < |rows| && Suppressing(rows[i]) && rows[i].fingerprint == f;
      assert rows[k := j][i] == rows[i];
    }
  }

  /** What an event does to the rows and the notices. */
  ghost predicate Reacts(rule: Rule, before: seq<Instance>, sent: seq<Notice>, e: Event, rows: seq<Instance>,
                         notices: seq<Notice>)
  {
    match e
    case Evaluation(keys, now, _, muted) =>
      && sent <= notices && Comes(before, rows, notices[|sent|..], SeenIn(rule.kind, keys), rule, now, muted)
      && (!muted ==> Reminded(rows, notices, rule, SeenIn(rule.kind, keys), now))
    case Acknowledgement(id) =>
      && notices == sent
      && rows == if id < |before| && (before[id].status == Firing || before[id].status == Acknowledged)
                 then before[id := before[id].(status := Acknowledged)] else before
    case ManualResolve(id) =>
      && notices == sent
      && rows == if id < |before| && before[id].status != Resolved
                 then before[id := before[id].(status := Resolved, suppressed := true)] else before
  }

  /** One event. */
  method Step(table: Table, e: Event)
    requires table.Valid() && Callable(e)
    modifies table
    ensures table.Valid() && old(table.notices) <= table.notices
    ensures ResolvedIsFinal(old(table.rows), table.rows)
    ensures Reacts(table.rule, old(table.rows), old(table.notices), e, table.rows, table.notices)
    ensures forall f :: HeldBack(old(table.rows), f) && NeverMissed(table.rule, [e], f) ==>
                          HeldBack(table.rows, f) && NoNewRow(old(table.rows), table.rows, f)
  {
    hide Good, Progress, HeldBack, NoNewRow, ResolvedIsFinal, Comes, Reminded;
    ghost var before := table.rows;
    match e {
      case Evaluation(keys, now, clock, muted) =>
        table.Evaluate(keys, now, clock, muted);
        EvaluationIsFinal(before, table.rows, SeenIn(table.rule.kind, keys), table.rule, now);
        forall f | NeverMissed(table.rule, [e], f)
          ensures f in SeenIn(table.rule.kind, keys)
        {
          assert [e][0].Evaluation?;
        }
      case Acknowledgement(id) =>
        var outcome := table.Acknowledge(id);
        Unchanged(before);
        if outcome == Done {
          ChangeSound(table, before, id);
          ChangeIsFinal(before, id, before[id].(status := Acknowledged));
        }
      case ManualResolve(id) =>
        var outcome := table.Resolve(id);
        Unchanged(before);
        if outcome == Done {
          ChangeSound(table, before, id);
          ChangeIsFinal(before, id, before[id].(status := Resolved, suppressed := true));
        }
    }
  }

  lemma ChangeSound(table: Table, before: seq<Instance>, id: nat)
    requires table.Valid() && |before| == |table.rows| && id < |before|
    ensures Sound(table.rows[id])
  {
  }

  lemma Unchanged(rows: seq<Instance>)
    ensures ResolvedIsFinal(rows, rows)
    ensures forall f :: HeldBack(rows, f) ==> NoNewRow(rows, rows, f)
  {
  }

  lemma FinalThen(a: seq<Instance>, b: seq<Instance>, c: seq<Instance>)
    requires ResolvedIsFinal(a, b) && ResolvedIsFinal(b, c)
    ensures ResolvedIsFinal(a, c)
    ensures forall f :: NoNewRow(a, b, f) && NoNewRow(b, c, f) ==> NoNewRow(a, c, f)
  {
  }

  /** The rows and notices before the first event and after each. */
  datatype Moment = Moment(rows: seq<Instance>, notices: seq<Notice>)

  ghost predicate History(rule: Rule, events: seq<Event>, moments: seq<Moment>)
  {
    && |moments| == |events| + 1
    && forall i :: 0 <= i < |events| ==> After(rule, moments[i], events[i], moments[i + 1])
  }

  ghost predicate After(rule: Rule, before: Moment, e: Event, after: Moment)
  {
    Reacts(rule, before.rows, before.notices, e, after.rows, after.notices)
  }

  lemma HistoryMore(rule: Rule, events: seq<Event>, moments: seq<Moment>, e: Event, next: Moment)
    requires History(rule, events, moments) && After(rule, moments[|events|], e, next)
    ensures History(rule, events + [e], moments + [next])
  {
    hide After;
    var events', moments' := events + [e], moments + [next];
    forall i | 0 <= i < |events'|
      ensures After(rule, moments'[i], events'[i], moments'[i + 1])
    {
      if i < |events| {
        assert After(rule, moments[i], events[i], moments[i + 1]);
      }
    }
  }

  /** Over every interleaving: at most one live instance per fingerprint, firing notices a cooldown
      apart, notices only for instances that fired (all this is `Valid`); every event has its effect,
      and after an evaluation that is not muted no firing instance it has seen is without a firing
      notice for the length of a cooldown; the resolved state is final; and a fingerprint held back by
      a manual resolve gets no new instance as long as every evaluation sees it. */
  method Run(table: Table, events: seq<Event>) returns (ghost moments: seq<Moment>)
    requires table.Valid() && forall i :: 0 <= i < |events| ==> Callable(events[i])
    modifies table
    ensures table.Valid() && old(table.notices) <= table.notices && ResolvedIsFinal(old(table.rows), table.rows)
    ensures History(table.rule, events, moments) && moments[0] == Moment(old(table.rows), old(table.notices))
    ensures moments[|events|] == Moment(table.rows, table.notices)
    ensures forall f :: HeldBack(old(table.rows), f) && NeverMissed(table.rule, events, f) ==>
                          HeldBack(table.rows, f) && NoNewRow(old(table.rows), table.rows, f)
  {
    hide Table.Valid, HeldBack, NoNewRow, ResolvedIsFinal, Reacts;
    Unchanged(table.rows);
    moments := [Moment(table.rows, table.notices)];
    var i := 0;
    while i < |events|
      invariant i <= |events| && table.Valid()
      invariant old(table.notices) <= table.notices && ResolvedIsFinal(old(table.rows), table.rows)
      invariant History(table.rule, events[..i], moments) && moments[0] == Moment(old(table.rows), old(table.notices))
      invariant moments[i] == Moment(table.rows, table.notices)
      invariant forall f :: HeldBack(old(table.rows), f) && NeverMissed(table.rule, events, f) ==>
                              HeldBack(table.rows, f) && NoNewRow(old(table.rows), table.rows, f)
    {
      ghost var before := table.rows;
      Step(table, events[i]);
      FinalThen(old(table.rows), before, table.rows);
      assert events[..i + 1] == events[..i] + [events[i]];
      HistoryMore(table.rule, events[..i], moments, events[i], Moment(table.rows, table.notices));
      moments := moments + [Moment(table.rows, table.notices)];
      i := i + 1;
    }
    assert events[..|events|] == events;
  }
}
