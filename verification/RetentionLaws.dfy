/** What one retention pass removes, from the rows and the settings alone. */
module RetentionLaws {
  import opened Wrappers
  import opened Integers
  import opened MemoryModel
  import opened StoreSpec

  const MILLIS_A_DAY: int := 24 * 60 * 60 * 1_000

  predicate IsTime(t: int) { -0x8000_0000_0000_0000 <= t <= 0x7fff_ffff_ffff_ffff }

  /** More than so many days before `now`. The length of a period is itself a 64-bit number, and one that is not
      counts as the longest there is. */
  predicate Older(t: int, now: int, days: nat) {
    now - t > days * MILLIS_A_DAY || now - t > 0x7fff_ffff_ffff_ffff
  }

  ghost predicate Timed(db: Database) {
    && (forall s | s in db.sources :: IsTime(db.sources[s].endedAt))
    && (forall k | k in db.audit :: IsTime(db.audit[k].createdAt))
    && (forall e | e in db.events :: IsTime(e.occurredAt))
  }

  lemma CutoffIsOlder(t: int, now: int, days: nat)
    requires IsTime(t) && IsTime(now)
    ensures t < SaturatingSub(now, SaturatingMul(days, DAY_MILLIS)) <==> Older(t, now, days)
  {
  }

  /** An audit row that still stands for something: any outcome but an ignored or a reviewed plan, or a memory. */
  predicate StandsFor(row: AuditRow) { row.memory.Some? || row.outcome !in {Ignored, ReviewRequested} }

  /** Which sources and audit rows a pass empties or removes; nothing but these and the events changes. */
  lemma RetentionExactly(db: Database, now: int)
    requires IsTime(now) && Timed(db)
    ensures var after := Serve(db, DoRetain(now));
      && after == db.(sources := after.sources, audit := after.audit, events := after.events)
      && after.sources.Keys == db.sources.Keys
      && (forall s | s in db.sources ::
            var row := db.sources[s];
            after.sources[s] == Source(if Older(row.endedAt, now, db.sourceDays) then "" else row.text,
                                       row.startedAt, row.endedAt))
      && (forall k :: k in after.audit <==>
            && k in db.audit
            && (StandsFor(db.audit[k]) || !Older(db.audit[k].createdAt, now, db.auditDays)))
      && (forall k | k in after.audit :: after.audit[k] == db.audit[k])
  {
    forall s | s in db.sources
      ensures db.sources[s].endedAt < SaturatingSub(now, SaturatingMul(db.sourceDays, DAY_MILLIS))
              <==> Older(db.sources[s].endedAt, now, db.sourceDays)
    {
      CutoffIsOlder(db.sources[s].endedAt, now, db.sourceDays);
    }
    forall k | k in db.audit
      ensures db.audit[k].createdAt < SaturatingSub(now, SaturatingMul(db.auditDays, DAY_MILLIS))
              <==> Older(db.audit[k].createdAt, now, db.auditDays)
    {
      CutoffIsOlder(db.audit[k].createdAt, now, db.auditDays);
    }
    hide Older, SaturatingSub, SaturatingMul, KeepRecent;
  }

  predicate Increasing(s: seq<nat>) { forall i, j | 0 <= i < j < |s| :: s[i] < s[j] }

  /** `kept` are the positions of the events that are not too old. */
  ghost predicate Recent(kept: seq<nat>, events: seq<Event>, now: int, days: nat) {
    && Increasing(kept)
    && (forall k | k in kept :: k < |events|)
    && forall k | 0 <= k < |events| :: k in kept <==> !Older(events[k].occurredAt, now, days)
  }

  ghost predicate Picks(picked: seq<Event>, events: seq<Event>, kept: seq<nat>) {
    |picked| == |kept| && forall i | 0 <= i < |kept| :: kept[i] < |events| && picked[i] == events[kept[i]]
  }

  lemma RecentShifted(rest: seq<nat>, shifted: seq<nat>, events: seq<Event>, now: int, days: nat)
    requires events != [] && Recent(rest, events[1..], now, days)
    requires |shifted| == |rest| && forall i | 0 <= i < |rest| :: shifted[i] == rest[i] + 1
    ensures Recent(if Older(events[0].occurredAt, now, days) then shifted else [0] + shifted, events, now, days)
  {
    hide Older;
    forall k | 0 < k < |events| ensures k in shifted <==> k - 1 in rest {
      if k - 1 in rest {
        var i :| 0 <= i < |rest| && rest[i] == k - 1;
        assert shifted[i] == k;
      }
    }
    forall k | k in shifted ensures 0 < k < |events| {
      var i :| 0 <= i < |shifted| && shifted[i] == k;
      assert rest[i] in rest;
    }
    assert forall k | 0 < k < |events| :: events[1..][k - 1] == events[k];
  }

  lemma PicksShifted(picked: seq<Event>, events: seq<Event>, rest: seq<nat>, shifted: seq<nat>)
    requires events != [] && Picks(picked, events[1..], rest)
    requires |shifted| == |rest| && forall i | 0 <= i < |rest| :: shifted[i] == rest[i] + 1
    ensures Picks(picked, events, shifted) && Picks([events[0]] + picked, events, [0] + shifted)
  {
  }

  lemma {:induction false} KeptPositions(events: seq<Event>, now: int, days: nat) returns (kept: seq<nat>)
    requires IsTime(now) && forall e | e in events :: IsTime(e.occurredAt)
    ensures Recent(kept, events, now, days)
    ensures Picks(KeepRecent(events, SaturatingSub(now, SaturatingMul(days, DAY_MILLIS))), events, kept)
  {
    kept := [];
    if events != [] {
      var cutoff := SaturatingSub(now, SaturatingMul(days, DAY_MILLIS));
      assert events[0] in events;
      CutoffIsOlder(events[0].occurredAt, now, days);
      hide SaturatingSub, SaturatingMul, Older, Recent, Picks;
      var rest := KeptPositions(events[1..], now, days);
      var shifted := seq(|rest|, i requires 0 <= i < |rest| => rest[i] + 1);
      var picked := KeepRecent(events[1..], cutoff);
      RecentShifted(rest, shifted, events, now, days);
      PicksShifted(picked, events, rest, shifted);
      kept := if events[0].occurredAt < cutoff then shifted else [0] + shifted;
      assert [] + picked == picked;
    }
  }

  /** Main result: exactly the events that are not too old stay, in order and each as often as it occurred. */
  lemma EventsExactly(db: Database, now: int) returns (kept: seq<nat>)
    requires IsTime(now) && Timed(db)
    ensures Recent(kept, db.events, now, db.auditDays) && Picks(Serve(db, DoRetain(now)).events, db.events, kept)
  {
    kept := KeptPositions(db.events, now, db.auditDays);
  }

  /** Source texts go by the source period alone. */
  lemma AuditPeriodSparesSources(db: Database, days: nat, now: int)
    ensures Serve(db.(auditDays := days), DoRetain(now)).sources == Serve(db, DoRetain(now)).sources
  {
    hide KeepRecent, Purged;
  }

  /** With the schema's periods of 30 and 7 days, a text from ten days ago stays. */
  lemma TenDaysAreKept(db: Database, s: string)
    requires Timed(db) && db.sourceDays == 30 && s in db.sources && db.sources[s].endedAt == 0
    ensures Serve(db, DoRetain(10 * MILLIS_A_DAY)).sources[s] == db.sources[s]
  {
    RetentionExactly(db, 10 * MILLIS_A_DAY);
    hide Serve;
  }
}
