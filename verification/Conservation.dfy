/**
 No message is lost and none is in two places.

 In PostgreSQL this holds in every interleaving: stale workers, expired leases and failing
 statements included. SQLite moves a row to the dead letter queue in two statements; there a
 message is never lost unless its row is deleted after the copy failed, and never doubled while
 the statements succeed and the lease discipline is kept.
 */
module Conservation {
  import opened Tables
  import opened QueueMachine

  // ---- the ledger: where every message is ----

  /** Which message a row stands for, and what the row says. */
  datatype Tag = Tag(origin: nat, content: Content)

  /** A row SQLite has copied and not yet deleted counts as moved: live leaves it out. */
  datatype Ledger = Ledger(
    live: map<nat, Tag>,
    dead: map<nat, Tag>,
    born: map<nat, Content>,
    acked: set<nat>,
    purged: set<nat>)

  function LiveTags(ms: map<nat, Row>, origin: map<nat, nat>, hidden: set<nat>): map<nat, Tag> {
    map id | id in ms && id !in hidden :: Tag(Lookup(origin, id), ContentOf(ms[id]))
  }

  function DeadTags(dead: map<nat, DeadRow>, origin: map<nat, nat>): map<nat, Tag> {
    map d | d in dead :: Tag(Lookup(origin, d), DeadContentOf(dead[d]))
  }

  function LedgerOf(s: State): Ledger {
    var t, h := s.tables, s.hist;
    Ledger(LiveTags(t.messages, h.origin, HiddenIds(s.jobs)), DeadTags(t.dead, h.deadOrigin), h.born, h.acked, h.purged)
  }

  // ---- what a step does to the ledger ----

  /** The dead rows a replay moves, in the order their new ids are given. */
  function Replayed(step: Step): seq<nat> {
    match step
    case ReplayOne(d, _, _) => [d]
    case ReplayAll(_, _, order, _) => order
    case _ => []
  }

  function AckLedger(l: Ledger, id: nat): Ledger {
    if id in l.live
    then l.(live := l.live - {id}, acked := l.acked + {l.live[id].origin})
    else l
  }

  function MoveLedger(l: Ledger, id: nat, d: nat): Ledger {
    if id in l.live
    then l.(live := l.live - {id}, dead := l.dead[d := l.live[id]])
    else l
  }

  function PurgeLedger(l: Ledger, ds: set<nat>): Ledger {
    l.(dead := l.dead - ds, purged := l.purged + (set d | d in ds && d in l.dead :: l.dead[d].origin))
  }

  function ReplayLedger(l: Ledger, ds: set<nat>, from: nat, order: seq<nat>): Ledger
    requires forall i :: 0 <= i < |order| ==> order[i] in l.dead
  {
    l.(dead := l.dead - ds,
       live := l.live + Numbered(from, TagsAt(l.dead, order)))
  }

  function TagsAt(dead: map<nat, Tag>, order: seq<nat>): (tags: seq<Tag>)
    requires forall i :: 0 <= i < |order| ==> order[i] in dead
    ensures |tags| == |order|
  {
    seq(|order|, i requires 0 <= i < |order| => dead[order[i]])
  }

  function PublishLedger(l: Ledger, from: nat, contents: seq<Content>): Ledger {
    l.(live := l.live + Numbered(from, seq(|contents|, i requires 0 <= i < |contents| => Tag(from + i, contents[i]))),
       born := l.born + Numbered(from, contents))
  }

  predicate Moves(cfg: Config, s: State, step: Step) {
    || (step.NackWrite? && step.w in s.jobs && s.jobs[step.w].Nacking? && s.jobs[step.w].count >= cfg.maxRetries)
    || (step.Copy? && step.ok)
  }

  lemma HiddenWithout(jobs: map<nat, Job>, w: nat)
    requires w in jobs
    ensures HiddenIds(jobs - {w}) <= HiddenIds(jobs) <= HiddenIds(jobs - {w}) + {jobs[w].id}
    ensures !jobs[w].Hides() ==> HiddenIds(jobs - {w}) == HiddenIds(jobs)
  {
    forall id | id in HiddenIds(jobs)
      ensures id in HiddenIds(jobs - {w}) || (jobs[w].Hides() && id == jobs[w].id)
    {
      var v :| v in jobs && jobs[v].Hides() && jobs[v].id == id;
      assert v == w || v in jobs - {w};
    }
  }

  lemma HiddenWith(jobs: map<nat, Job>, w: nat, job: Job)
    requires w in jobs ==> !jobs[w].Hides()
    ensures HiddenIds(jobs[w := job]) == HiddenIds(jobs) + (if job.Hides() then {job.id} else {})
  {
    var jobs' := jobs[w := job];
    assert jobs'[w] == job;
    forall id | id in HiddenIds(jobs)
      ensures id in HiddenIds(jobs')
    {
      var v :| v in jobs && jobs[v].Hides() && jobs[v].id == id;
      assert v in jobs' && jobs'[v] == jobs[v];
    }
  }

  lemma HiddenNext(cfg: Config, s: State, step: Step)
    requires Enabled(cfg, s, step) && MoveSucceeds(s, step) && (step.Copy? ==> !step.ok)
    ensures var s' := Next(cfg, s, step);
            HiddenIds(s'.jobs) <= HiddenIds(s.jobs)
            && forall id :: id in HiddenIds(s.jobs) ==> id in HiddenIds(s'.jobs) || id !in s'.tables.messages
  {
    match step
    case Fetch(w, _, _, id, at) =>
      HiddenWith(s.jobs, w, Holding(id, at + cfg.lockTimeout));
    case NackRead(w) =>
      HiddenWithout(s.jobs, w);
      if s.jobs[w].id in s.tables.messages {
        HiddenWith(s.jobs, w, Next(cfg, s, step).jobs[w]);
      }
    case Ack(w) => HiddenWithout(s.jobs, w);
    case Unlock(w) => HiddenWithout(s.jobs, w);
    case NackWrite(w, _) => HiddenWithout(s.jobs, w);
    case Copy(w, ok, _) => HiddenWith(s.jobs, w, Copied(s.jobs[w].id, s.jobs[w].lease, ok));
    case DeleteCopied(w) => HiddenWithout(s.jobs, w);
    case Abandon(w) => HiddenWithout(s.jobs, w);
    case _ =>
  }

  /** Rows that go were hidden, and hidden rows stay hidden or go. */
  lemma LiveSame(ms: map<nat, Row>, ms': map<nat, Row>, origin: map<nat, nat>, hidden: set<nat>, hidden': set<nat>)
    requires RowsKept(ms, ms') && hidden' <= hidden
    requires forall id :: id in hidden ==> id in hidden' || id !in ms'
    requires forall id :: id in ms && id !in hidden ==> id in ms'
    ensures LiveTags(ms', origin, hidden') == LiveTags(ms, origin, hidden)
  {
  }

  lemma QuietRest(cfg: Config, s: State, step: Step)
    requires Enabled(cfg, s, step) && MoveSucceeds(s, step)
    requires !Inserts(step) && !step.Ack? && !step.Purge? && !Moves(cfg, s, step)
    ensures var s', h, h' := Next(cfg, s, step), s.hist, Next(cfg, s, step).hist;
            && s'.tables.dead == s.tables.dead && h' == h
            && (forall id :: id in s.tables.messages && id !in HiddenIds(s.jobs) ==> id in s'.tables.messages)
  {
    if step.DeleteCopied? {
      assert s.jobs[step.w].Hides() && s.jobs[step.w].id in HiddenIds(s.jobs);
    }
  }

  lemma QuietStep(cfg: Config, s: State, step: Step)
    requires Booked(s) && Enabled(cfg, s, step) && MoveSucceeds(s, step)
    requires !Inserts(step) && !step.Ack? && !step.Purge? && !Moves(cfg, s, step)
    ensures LedgerOf(Next(cfg, s, step)) == LedgerOf(s)
  {
    var s' := Next(cfg, s, step);
    OnlyInsertionsAddRows(cfg, s, step);
    HiddenNext(cfg, s, step);
    QuietRest(cfg, s, step);
    LiveSame(s.tables.messages, s'.tables.messages, s.hist.origin, HiddenIds(s.jobs), HiddenIds(s'.jobs));
  }

  /** Nothing disappears from l, and no message is added. */
  ghost predicate Grows(l: Ledger, l': Ledger) {
    && (forall id :: id in l.live ==> id in l'.live && l'.live[id] == l.live[id])
    && (forall d :: d in l.dead ==> d in l'.dead && l'.dead[d] == l.dead[d])
    && l'.born == l.born && l.acked <= l'.acked && l.purged <= l'.purged
  }

  lemma LiveWithout(ms: map<nat, Row>, origin: map<nat, nat>, hidden: set<nat>, id: nat)
    ensures LiveTags(ms - {id}, origin, hidden) == LiveTags(ms, origin, hidden) - {id}
    ensures LiveTags(ms, origin, hidden + {id}) == LiveTags(ms, origin, hidden) - {id}
  {
  }

  function TagsOf(origins: seq<nat>, rows: seq<Row>): seq<Tag>
    requires |origins| == |rows|
  {
    seq(|rows|, i requires 0 <= i < |rows| => Tag(origins[i], ContentOf(rows[i])))
  }

  lemma LiveWith(ms: map<nat, Row>, origin: map<nat, nat>, hidden: set<nat>, from: nat, rows: seq<Row>, origins: seq<nat>)
    requires |origins| == |rows|
    requires forall id :: id in ms || id in hidden ==> id < from
    ensures LiveTags(ms + Numbered(from, rows), origin + Numbered(from, origins), hidden)
         == LiveTags(ms, origin, hidden) + Numbered(from, TagsOf(origins, rows))
  {
  }

  lemma DeadWith(dead: map<nat, DeadRow>, origin: map<nat, nat>, d: nat, row: DeadRow, o: nat)
    requires d !in dead
    ensures DeadTags(dead[d := row], origin[d := o]) == DeadTags(dead, origin)[d := Tag(o, DeadContentOf(row))]
  {
  }

  lemma DeadWithout(dead: map<nat, DeadRow>, origin: map<nat, nat>, ds: set<nat>)
    ensures DeadTags(dead - ds, origin) == DeadTags(dead, origin) - ds
  {
  }

  lemma AckStep(s: State, w: nat)
    requires Booked(s) && w in s.jobs && s.jobs[w].Holding?
    ensures var id, l, l' := s.jobs[w].id, LedgerOf(s), LedgerOf(AfterAck(s, w));
            && (id in HiddenIds(s.jobs) ==> Grows(l, l'))
            && (id !in HiddenIds(s.jobs) ==> l' == AckLedger(l, id))
  {
    HiddenWithout(s.jobs, w);
    LiveWithout(s.tables.messages, s.hist.origin, HiddenIds(s.jobs), s.jobs[w].id);
  }

  lemma MoveStep(s: State, w: nat, failedAt: int)
    requires Booked(s) && w in s.jobs && s.jobs[w].Nacking?
    ensures var id, l, moved, copied := s.jobs[w].id, LedgerOf(s), AfterMove(s, w, failedAt), AfterCopy(s, w, true, failedAt);
            && (id in HiddenIds(s.jobs) ==> Grows(l, LedgerOf(moved)) && Grows(l, LedgerOf(copied)))
            && (id !in HiddenIds(s.jobs) ==>
                  LedgerOf(moved) == LedgerOf(copied) == MoveLedger(l, id, s.tables.nextDeadId))
  {
    var id, t, h := s.jobs[w].id, s.tables, s.hist;
    HiddenWithout(s.jobs, w);
    HiddenWith(s.jobs, w, Copied(id, s.jobs[w].lease, true));
    LiveWithout(t.messages, h.origin, HiddenIds(s.jobs), id);
    if id in t.messages {
      DeadWith(t.dead, h.deadOrigin, t.nextDeadId, DeadOf(t.messages[id], failedAt), OriginOf(h, id));
    }
  }

  lemma PurgeStep(s: State, topic: string)
    ensures LedgerOf(AfterPurge(s, topic)) == PurgeLedger(LedgerOf(s), DeadIn(s.tables, topic))
  {
    var ds := DeadIn(s.tables, topic);
    DeadWithout(s.tables.dead, s.hist.deadOrigin, ds);
    assert LedgerOf(AfterPurge(s, topic)).purged == PurgeLedger(LedgerOf(s), ds).purged;
  }

  lemma PublishStep(s: State, rows: seq<Row>)
    requires Booked(s)
    ensures LedgerOf(AfterPublish(s, rows))
         == PublishLedger(LedgerOf(s), s.tables.nextId, seq(|rows|, i requires 0 <= i < |rows| => ContentOf(rows[i])))
  {
    var origins := Selves(s.tables.nextId, |rows|);
    LiveWith(s.tables.messages, s.hist.origin, HiddenIds(s.jobs), s.tables.nextId, rows, origins);
    var contents := seq(|rows|, i requires 0 <= i < |rows| => ContentOf(rows[i]));
    forall i: nat | i < |rows|
      ensures origins[i] == s.tables.nextId + i
    {
      SelvesAt(s.tables.nextId, |rows|, i);
    }
    assert TagsOf(origins, rows)
        == seq(|contents|, i requires 0 <= i < |contents| => Tag(s.tables.nextId + i, contents[i]));
  }

  lemma ReplayedTags(s: State, order: seq<nat>, rows: seq<Row>)
    requires |order| == |rows| && forall i :: 0 <= i < |order| ==> order[i] in s.tables.dead
    requires forall i :: 0 <= i < |order| ==> ContentOf(rows[i]) == DeadContentOf(s.tables.dead[order[i]])
    ensures TagsOf(OriginsAt(s.hist, order), rows) == TagsAt(LedgerOf(s).dead, order)
  {
    var tags := TagsOf(OriginsAt(s.hist, order), rows);
    assert forall i :: 0 <= i < |order| ==> tags[i] == LedgerOf(s).dead[order[i]];
  }

  lemma ReplayStep(s: State, ds: set<nat>, order: seq<nat>, rows: seq<Row>)
    requires Booked(s) && |order| == |rows| && forall i :: 0 <= i < |order| ==> order[i] in s.tables.dead
    requires forall i :: 0 <= i < |order| ==> ContentOf(rows[i]) == DeadContentOf(s.tables.dead[order[i]])
    ensures LedgerOf(AfterReplay(s, ds, order, rows)) == ReplayLedger(LedgerOf(s), ds, s.tables.nextId, order)
  {
    DeadWithout(s.tables.dead, s.hist.deadOrigin, ds);
    ReplayedTags(s, order, rows);
    LiveWith(s.tables.messages, s.hist.origin, HiddenIds(s.jobs), s.tables.nextId, rows, OriginsAt(s.hist, order));
  }

  // ---- at least one place ----

  ghost predicate Accounted(l: Ledger, o: nat) {
    || o in l.acked
    || o in l.purged
    || (exists id :: id in l.live && l.live[id].origin == o)
    || (exists d :: d in l.dead && l.dead[d].origin == o)
  }

  ghost predicate AllAccounted(l: Ledger) {
    forall o :: o in l.born ==> Accounted(l, o)
  }

  lemma GrowingAccounts(l: Ledger, l': Ledger)
    requires AllAccounted(l) && Grows(l, l')
    ensures AllAccounted(l')
  {
    forall o | o in l'.born
      ensures Accounted(l', o)
    {
      assert Accounted(l, o);
    }
  }

  lemma AckAccounts(l: Ledger, id: nat)
    requires AllAccounted(l)
    ensures AllAccounted(AckLedger(l, id))
  {
    var l' := AckLedger(l, id);
    forall o | o in l'.born
      ensures Accounted(l', o)
    {
      assert Accounted(l, o);
      if i :| i in l.live && l.live[i].origin == o {
        assert o in l'.acked || i in l'.live;
      }
    }
  }

  lemma MoveAccounts(l: Ledger, id: nat, d: nat)
    requires AllAccounted(l) && d !in l.dead
    ensures AllAccounted(MoveLedger(l, id, d))
  {
    var l' := MoveLedger(l, id, d);
    forall o | o in l'.born
      ensures Accounted(l', o)
    {
      assert Accounted(l, o);
      if i :| i in l.live && l.live[i].origin == o {
        assert i in l'.live || (d in l'.dead && l'.dead[d].origin == o);
      } else if j :| j in l.dead && l.dead[j].origin == o {
        assert j in l'.dead && l'.dead[j].origin == o;
      }
    }
  }

  lemma PurgeAccounts(l: Ledger, ds: set<nat>)
    requires AllAccounted(l)
    ensures AllAccounted(PurgeLedger(l, ds))
  {
    var l' := PurgeLedger(l, ds);
    forall o | o in l'.born
      ensures Accounted(l', o)
    {
      assert Accounted(l, o);
      if j :| j in l.dead && l.dead[j].origin == o {
        assert j in l'.dead || o in l'.purged;
      }
    }
  }

  lemma PublishAccounts(l: Ledger, from: nat, contents: seq<Content>)
    requires AllAccounted(l) && forall id :: id in l.live ==> id < from
    ensures AllAccounted(PublishLedger(l, from, contents))
  {
    var l' := PublishLedger(l, from, contents);
    forall o | o in l'.born
      ensures Accounted(l', o)
    {
      if o !in FreshIds(from, |contents|) {
        assert Accounted(l, o);
        if i :| i in l.live && l.live[i].origin == o {
          assert i in l'.live && l'.live[i].origin == o;
        }
      } else {
        assert o in l'.live && l'.live[o].origin == o;
      }
    }
  }

  lemma ReplayAccounts(l: Ledger, ds: set<nat>, from: nat, order: seq<nat>)
    requires AllAccounted(l) && forall id :: id in l.live ==> id < from
    requires Lists(order, ds) && ds <= l.dead.Keys
    ensures AllAccounted(ReplayLedger(l, ds, from, order))
  {
    var l' := ReplayLedger(l, ds, from, order);
    forall o | o in l'.born
      ensures Accounted(l', o)
    {
      assert Accounted(l, o);
      if i :| i in l.live && l.live[i].origin == o {
        assert i in l'.live && l'.live[i].origin == o;
      } else if j :| j in l.dead && l.dead[j].origin == o {
        if j in ds {
          var k :| 0 <= k < |order| && order[k] == j;
          assert from + k in FreshIds(from, |order|);
          assert from + k in l'.live && l'.live[from + k].origin == o;
        } else {
          assert j in l'.dead;
        }
      }
    }
  }

  // ---- at most one place ----

  /** The message is published with this content, and neither acknowledged nor purged. */
  predicate Open(l: Ledger, tag: Tag) {
    tag.origin in l.born && l.born[tag.origin] == tag.content && tag.origin !in l.acked && tag.origin !in l.purged
  }

  ghost predicate Separate(m: map<nat, Tag>) {
    forall i, j :: i in m && j in m && m[i].origin == m[j].origin ==> i == j
  }

  ghost predicate SinglePlace(l: Ledger) {
    && l.acked <= l.born.Keys && l.purged <= l.born.Keys && l.acked !! l.purged
    && (forall id :: id in l.live ==> Open(l, l.live[id]))
    && (forall d :: d in l.dead ==> Open(l, l.dead[d]))
    && Separate(l.live) && Separate(l.dead)
    && (forall i, j :: i in l.live && j in l.dead ==> l.live[i].origin != l.dead[j].origin)
  }

  lemma AckSingle(l: Ledger, id: nat)
    requires SinglePlace(l)
    ensures SinglePlace(AckLedger(l, id))
  {
  }

  lemma MoveSingle(l: Ledger, id: nat, d: nat)
    requires SinglePlace(l) && d !in l.dead
    ensures SinglePlace(MoveLedger(l, id, d))
  {
  }

  lemma PurgeSingle(l: Ledger, ds: set<nat>)
    requires SinglePlace(l)
    ensures SinglePlace(PurgeLedger(l, ds))
  {
  }

  lemma NumberedSeparate(m: map<nat, Tag>, from: nat, tags: seq<Tag>)
    requires Separate(m) && forall id :: id in m ==> id < from
    requires forall i, j :: 0 <= i < j < |tags| ==> tags[i].origin != tags[j].origin
    requires forall i, id :: 0 <= i < |tags| && id in m ==> tags[i].origin != m[id].origin
    ensures Separate(m + Numbered(from, tags))
  {
  }

  /** Tags of open messages that no row stands for may be given rows. */
  lemma InsertSingle(l: Ledger, from: nat, tags: seq<Tag>)
    requires SinglePlace(l) && forall id :: id in l.live ==> id < from
    requires forall i, j :: 0 <= i < j < |tags| ==> tags[i].origin != tags[j].origin
    requires forall i, id :: 0 <= i < |tags| && id in l.live ==> tags[i].origin != l.live[id].origin
    requires forall i, d :: 0 <= i < |tags| && d in l.dead ==> tags[i].origin != l.dead[d].origin
    requires forall i :: 0 <= i < |tags| ==> Open(l, tags[i])
    ensures SinglePlace(l.(live := l.live + Numbered(from, tags)))
  {
    NumberedSeparate(l.live, from, tags);
    var live := l.live + Numbered(from, tags);
    assert forall id :: id in live ==> id in l.live || live[id] == tags[id - from];
  }

  lemma PublishSingle(l: Ledger, from: nat, contents: seq<Content>)
    requires SinglePlace(l) && (forall o :: o in l.born ==> o < from) && (forall id :: id in l.live ==> id < from)
    ensures SinglePlace(PublishLedger(l, from, contents))
  {
    InsertSingle(l.(born := l.born + Numbered(from, contents)), from,
                 seq(|contents|, i requires 0 <= i < |contents| => Tag(from + i, contents[i])));
  }

  lemma ReplaySingle(l: Ledger, ds: set<nat>, from: nat, order: seq<nat>)
    requires SinglePlace(l) && Lists(order, ds) && ds <= l.dead.Keys
    requires forall id :: id in l.live ==> id < from
    ensures SinglePlace(ReplayLedger(l, ds, from, order))
  {
    InsertSingle(l.(dead := l.dead - ds), from, TagsAt(l.dead, order));
  }

  // ---- every step ----

  /** No worker but the one that copied it still has business with a hidden row. */
  ghost predicate HiddenAlone(s: State) {
    forall w :: w in s.jobs && !s.jobs[w].Hides() ==> s.jobs[w].id !in HiddenIds(s.jobs)
  }

  /** From s to s', nothing is lost, and nothing is doubled if alone holds. */
  ghost predicate Keeps(s: State, s': State, alone: bool) {
    && (AllAccounted(LedgerOf(s)) ==> AllAccounted(LedgerOf(s')))
    && (SinglePlace(LedgerOf(s)) && alone ==> SinglePlace(LedgerOf(s')))
  }

  lemma AckKeeps(s: State, w: nat)
    requires Booked(s) && w in s.jobs && s.jobs[w].Holding?
    ensures Keeps(s, AfterAck(s, w), s.jobs[w].id !in HiddenIds(s.jobs))
  {
    var l, l' := LedgerOf(s), LedgerOf(AfterAck(s, w));
    AckStep(s, w);
    if AllAccounted(l) {
      AckAccounts(l, s.jobs[w].id);
      if Grows(l, l') { GrowingAccounts(l, l'); }
    }
    if SinglePlace(l) { AckSingle(l, s.jobs[w].id); }
  }

  lemma MoveKeeps(s: State, s': State, w: nat, failedAt: int)
    requires Booked(s) && w in s.jobs && s.jobs[w].Nacking?
    requires s' == AfterMove(s, w, failedAt) || s' == AfterCopy(s, w, true, failedAt)
    ensures Keeps(s, s', s.jobs[w].id !in HiddenIds(s.jobs))
  {
    var l, l', id, d := LedgerOf(s), LedgerOf(s'), s.jobs[w].id, s.tables.nextDeadId;
    MoveStep(s, w, failedAt);
    if AllAccounted(l) {
      MoveAccounts(l, id, d);
      if Grows(l, l') { GrowingAccounts(l, l'); }
    }
    if SinglePlace(l) { MoveSingle(l, id, d); }
  }

  lemma PurgeKeeps(s: State, topic: string)
    ensures Keeps(s, AfterPurge(s, topic), true)
  {
    var l, ds := LedgerOf(s), DeadIn(s.tables, topic);
    PurgeStep(s, topic);
    if AllAccounted(l) { PurgeAccounts(l, ds); }
    if SinglePlace(l) { PurgeSingle(l, ds); }
  }

  lemma PublishKeeps(s: State, rows: seq<Row>)
    requires Booked(s)
    ensures Keeps(s, AfterPublish(s, rows), true)
  {
    var l, from := LedgerOf(s), s.tables.nextId;
    var contents := seq(|rows|, i requires 0 <= i < |rows| => ContentOf(rows[i]));
    PublishStep(s, rows);
    if AllAccounted(l) { PublishAccounts(l, from, contents); }
    if SinglePlace(l) { PublishSingle(l, from, contents); }
  }

  lemma ReplayKeeps(s: State, ds: set<nat>, order: seq<nat>, rows: seq<Row>)
    requires Booked(s) && |order| == |rows| && Lists(order, ds) && ds <= s.tables.dead.Keys
    requires forall i :: 0 <= i < |order| ==> ContentOf(rows[i]) == DeadContentOf(s.tables.dead[order[i]])
    ensures Keeps(s, AfterReplay(s, ds, order, rows), true)
  {
    var l, from := LedgerOf(s), s.tables.nextId;
    ReplayStep(s, ds, order, rows);
    if AllAccounted(l) { ReplayAccounts(l, ds, from, order); }
    if SinglePlace(l) { ReplaySingle(l, ds, from, order); }
  }

  lemma NextKeeps(cfg: Config, s: State, step: Step)
    requires Booked(s) && Enabled(cfg, s, step) && MoveSucceeds(s, step)
    ensures Keeps(s, Next(cfg, s, step), HiddenAlone(s))
  {
    var t := s.tables;
    if Moves(cfg, s, step) {
      MoveKeeps(s, Next(cfg, s, step), step.w, DatabaseTime(cfg.dialect, step.at));
    } else {
      match step
      case Ack(w) => AckKeeps(s, w);
      case Purge(topic) => PurgeKeeps(s, topic);
      case Publish(topic, batch, times) => PublishKeeps(s, NewRows(topic, batch, times));
      case ReplayOne(d, stamp, at) => ReplayKeeps(s, {d}, [d], [ReplayedOne(cfg, t, d, stamp, at)]);
      case ReplayAll(topic, stamp, order, at) =>
        ReplayKeeps(s, DeadIn(t, topic), order, ReplayedAll(cfg, t, stamp, order, at));
      case _ => QuietStep(cfg, s, step);
    }
  }

  // ---- in how many places a message is ----

  function RowsOf(s: State, o: nat): set<nat> {
    set id | id in s.tables.messages && id !in HiddenIds(s.jobs) && OriginOf(s.hist, id) == o
  }

  function DeadRowsOf(s: State, o: nat): set<nat> {
    set d | d in s.tables.dead && DeadOriginOf(s.hist, d) == o
  }

  /** The places message o is in: rows of either table, acknowledged, purged. */
  function Places(s: State, o: nat): nat {
    |RowsOf(s, o)| + |DeadRowsOf(s, o)| + (if o in s.hist.acked then 1 else 0) + (if o in s.hist.purged then 1 else 0)
  }

  /** Message o is in exactly one place, and every row it has says what was published. */
  ghost predicate Kept(s: State, o: nat)
    requires o in s.hist.born
  {
    && Places(s, o) == 1
    && (forall id :: id in RowsOf(s, o) ==> ContentOf(s.tables.messages[id]) == s.hist.born[o])
    && (forall d :: d in DeadRowsOf(s, o) ==> DeadContentOf(s.tables.dead[d]) == s.hist.born[o])
  }

  lemma AtMostOne(xs: set<nat>)
    requires forall x, y :: x in xs && y in xs ==> x == y
    ensures |xs| == if xs == {} then 0 else 1
  {
    if xs != {} {
      var x :| x in xs;
      assert xs == {x};
    }
  }

  lemma LedgerKeeps(s: State, o: nat)
    requires AllAccounted(LedgerOf(s)) && SinglePlace(LedgerOf(s)) && o in s.hist.born
    ensures Kept(s, o)
  {
    var l := LedgerOf(s);
    assert Accounted(l, o);
    assert forall id :: id in RowsOf(s, o) <==> id in l.live && l.live[id].origin == o;
    assert forall d :: d in DeadRowsOf(s, o) <==> d in l.dead && l.dead[d].origin == o;
    AtMostOne(RowsOf(s, o));
    AtMostOne(DeadRowsOf(s, o));
  }

  function Origins(m: map<nat, Tag>): set<nat> {
    set id | id in m :: m[id].origin
  }

  lemma {:induction false} OriginsCount(m: map<nat, Tag>)
    requires Separate(m)
    ensures |Origins(m)| == |m|
    decreases |m|
  {
    if m != map[] {
      var id :| id in m;
      var rest := m - {id};
      OriginsCount(rest);
      assert m == rest[id := m[id]];
      assert Origins(m) == Origins(rest) + {m[id].origin};
    }
  }

  lemma DisjointSizes(a: set<nat>, b: set<nat>, c: set<nat>, d: set<nat>)
    requires a !! b !! c !! d
    ensures |a + b + c + d| == |a| + |b| + |c| + |d|
  {
  }

  lemma OriginsPartition(l: Ledger)
    requires AllAccounted(l) && SinglePlace(l)
    ensures Origins(l.live) !! Origins(l.dead) !! l.acked !! l.purged
    ensures l.born.Keys == Origins(l.live) + Origins(l.dead) + l.acked + l.purged
  {
    forall o | o in l.born
      ensures o in Origins(l.live) + Origins(l.dead) + l.acked + l.purged
    {
      assert Accounted(l, o);
    }
  }

  lemma SameKeysSameSize<A, B>(m: map<nat, A>, n: map<nat, B>)
    requires m.Keys == n.Keys
    ensures |m| == |n|
  {
    assert |m.Keys| == |m| && |n.Keys| == |n|;
  }

  lemma LedgerCount(l: Ledger)
    requires AllAccounted(l) && SinglePlace(l)
    ensures |l.born| == |l.live| + |l.dead| + |l.acked| + |l.purged|
  {
    OriginsPartition(l);
    DisjointSizes(Origins(l.live), Origins(l.dead), l.acked, l.purged);
    OriginsCount(l.live);
    OriginsCount(l.dead);
    assert |l.born.Keys| == |l.born|;
  }

  lemma LedgerKeys(s: State)
    requires HiddenIds(s.jobs) == {}
    ensures LedgerOf(s).live.Keys == s.tables.messages.Keys && LedgerOf(s).dead.Keys == s.tables.dead.Keys
    ensures LedgerOf(s).born == s.hist.born && LedgerOf(s).acked == s.hist.acked && LedgerOf(s).purged == s.hist.purged
  {
  }

  /** The books balance: what was published is what waits, what is dead, what was acknowledged and what was purged. */
  lemma LedgerBalances(s: State)
    requires AllAccounted(LedgerOf(s)) && SinglePlace(LedgerOf(s)) && HiddenIds(s.jobs) == {}
    ensures |s.hist.born| == |s.tables.messages| + |s.tables.dead| + |s.hist.acked| + |s.hist.purged|
  {
    LedgerCount(LedgerOf(s));
    LedgerKeys(s);
    SameKeysSameSize(LedgerOf(s).live, s.tables.messages);
    SameKeysSameSize(LedgerOf(s).dead, s.tables.dead);
  }

  // ---- the books of one topic ----

  /** The messages published on a topic. */
  function BornIn(h: History, topic: string): set<nat> {
    set o | o in h.born && h.born[o].topic == topic
  }

  function TagsIn(m: map<nat, Tag>, topic: string): map<nat, Tag> {
    map id | id in m && m[id].content.topic == topic :: m[id]
  }

  function TopicLedger(l: Ledger, topic: string): Ledger {
    var born := map o | o in l.born && l.born[o].topic == topic :: l.born[o];
    Ledger(TagsIn(l.live, topic), TagsIn(l.dead, topic), born, l.acked * born.Keys, l.purged * born.Keys)
  }

  /** A message stays on the topic it was published on, wherever it is. */
  lemma TopicAccounted(l: Ledger, topic: string)
    requires AllAccounted(l) && SinglePlace(l)
    ensures AllAccounted(TopicLedger(l, topic))
  {
    var k := TopicLedger(l, topic);
    forall o | o in k.born
      ensures Accounted(k, o)
    {
      assert Accounted(l, o);
      if id :| id in l.live && l.live[id].origin == o {
        assert Open(l, l.live[id]) && id in k.live;
      }
      if d :| d in l.dead && l.dead[d].origin == o {
        assert Open(l, l.dead[d]) && d in k.dead;
      }
    }
  }

  lemma TopicSingle(l: Ledger, topic: string)
    requires SinglePlace(l)
    ensures SinglePlace(TopicLedger(l, topic))
  {
  }

  /** The books of the topic balance, but for rows that SQLite has copied and not yet deleted. */
  predicate TopicBalanced(s: State, topic: string) {
    var t, h := s.tables, s.hist;
    |BornIn(h, topic)| == |PendingIn(t, topic) - HiddenIds(s.jobs)| + |DeadIn(t, topic)|
                          + |h.acked * BornIn(h, topic)| + |h.purged * BornIn(h, topic)|
  }

  lemma SizeOfKeys<A>(m: map<nat, A>, keys: set<nat>)
    requires m.Keys == keys
    ensures |m| == |keys|
  {
    assert |m.Keys| == |m|;
  }

  lemma TopicKeys(s: State, topic: string)
    ensures var k := TopicLedger(LedgerOf(s), topic);
            && k.live.Keys == PendingIn(s.tables, topic) - HiddenIds(s.jobs)
            && k.dead.Keys == DeadIn(s.tables, topic)
            && k.born.Keys == BornIn(s.hist, topic)
            && k.acked == s.hist.acked * BornIn(s.hist, topic)
            && k.purged == s.hist.purged * BornIn(s.hist, topic)
  {
  }

  lemma LedgerBalancesTopic(s: State, topic: string)
    requires AllAccounted(LedgerOf(s)) && SinglePlace(LedgerOf(s))
    ensures TopicBalanced(s, topic)
  {
    var k := TopicLedger(LedgerOf(s), topic);
    TopicAccounted(LedgerOf(s), topic);
    TopicSingle(LedgerOf(s), topic);
    LedgerCount(k);
    TopicKeys(s, topic);
    SizeOfKeys(k.live, PendingIn(s.tables, topic) - HiddenIds(s.jobs));
    SizeOfKeys(k.dead, DeadIn(s.tables, topic));
    SizeOfKeys(k.born, BornIn(s.hist, topic));
  }

  // ---- whole runs ----

  /** A row whose copy was made and which is not deleted is back among the messages: it is in two places. */
  lemma DoublingGrows(s: State, w: nat)
    requires w in s.jobs && s.jobs[w].Hides()
    ensures Grows(LedgerOf(s), LedgerOf(s.(jobs := s.jobs - {w})))
  {
    HiddenWithout(s.jobs, w);
  }

  lemma NextAccounts(cfg: Config, s: State, step: Step)
    requires Booked(s) && Enabled(cfg, s, step) && !Drops(s, step) && AllAccounted(LedgerOf(s))
    ensures AllAccounted(LedgerOf(Next(cfg, s, step)))
  {
    if Doubles(s, step) {
      DoublingGrows(s, step.w);
      GrowingAccounts(LedgerOf(s), LedgerOf(Next(cfg, s, step)));
    } else {
      NextKeeps(cfg, s, step);
    }
  }

  lemma {:induction false} RunAccounts(r: Run, i: nat)
    requires r.FromStart() && r.NothingDropped() && i < |r.states|
    ensures AllAccounted(LedgerOf(r.states[i]))
  {
    if i > 0 {
      RunAccounts(r, i - 1);
      RunWellFormed(r, i - 1);
      assert r.StepAt(i - 1);
      NextAccounts(r.cfg, r.states[i - 1], r.steps[i - 1]);
    }
  }

  lemma MovesThatSucceedDropNothing(r: Run)
    requires r.MovesSucceed()
    ensures r.NothingDropped() && r.DeletesSucceed()
  {
    forall i | 0 <= i < |r.steps| && i < |r.states|
      ensures !Drops(r.states[i], r.steps[i]) && !Doubles(r.states[i], r.steps[i])
    {
      assert MoveSucceeds(r.states[i], r.steps[i]);
    }
  }

  lemma {:induction false} RunSinglePlace(r: Run, i: nat)
    requires r.FromStart() && r.MovesSucceed() && i < |r.states|
    requires forall j :: 0 <= j < i ==> HiddenAlone(r.states[j])
    ensures SinglePlace(LedgerOf(r.states[i]))
  {
    if i > 0 {
      RunSinglePlace(r, i - 1);
      RunWellFormed(r, i - 1);
      assert r.StepAt(i - 1);
      NextKeeps(r.cfg, r.states[i - 1], r.steps[i - 1]);
    }
  }

  lemma {:induction false} OneStatementNeverCopies(r: Run, i: nat)
    requires r.FromStart() && r.cfg.oneStatement && i < |r.states|
    ensures forall w :: w in r.states[i].jobs ==> !r.states[i].jobs[w].Copied?
    ensures HiddenIds(r.states[i].jobs) == {}
  {
    if i > 0 {
      OneStatementNeverCopies(r, i - 1);
      assert r.StepAt(i - 1);
    }
  }

  lemma OneStatementMovesSucceed(r: Run)
    requires r.FromStart() && r.cfg.oneStatement
    ensures r.MovesSucceed()
    ensures forall i :: 0 <= i < |r.states| ==> HiddenAlone(r.states[i])
  {
    forall i: nat | i < |r.states|
      ensures HiddenAlone(r.states[i])
      ensures i < |r.steps| ==> MoveSucceeds(r.states[i], r.steps[i])
    {
      OneStatementNeverCopies(r, i);
      assert i < |r.steps| ==> r.StepAt(i);
    }
  }

  /** PostgreSQL, any interleaving: every published message is always in exactly one place, saying what was published. */
  lemma PostgresConserves(r: Run, i: nat)
    requires r.FromStart() && r.cfg.oneStatement && i < |r.states|
    ensures forall o :: o in r.states[i].hist.born ==> Kept(r.states[i], o)
    ensures var s := r.states[i];
            |s.hist.born| == |s.tables.messages| + |s.tables.dead| + |s.hist.acked| + |s.hist.purged|
  {
    var s := r.states[i];
    OneStatementMovesSucceed(r);
    OneStatementNeverCopies(r, i);
    MovesThatSucceedDropNothing(r);
    RunAccounts(r, i);
    RunSinglePlace(r, i);
    forall o | o in s.hist.born
      ensures Kept(s, o)
    {
      LedgerKeeps(s, o);
    }
    LedgerBalances(s);
  }

  /** PostgreSQL, any interleaving: the books of every topic balance. */
  lemma PostgresBalancesTopic(r: Run, i: nat, topic: string)
    requires r.FromStart() && r.cfg.oneStatement && i < |r.states|
    ensures TopicBalanced(r.states[i], topic) && HiddenIds(r.states[i].jobs) == {}
  {
    OneStatementMovesSucceed(r);
    OneStatementNeverCopies(r, i);
    MovesThatSucceedDropNothing(r);
    RunAccounts(r, i);
    RunSinglePlace(r, i);
    LedgerBalancesTopic(r.states[i], topic);
  }

  /**
   SQLite, any interleaving in which no row is deleted whose copy failed: a message that is neither
   acknowledged nor purged is in at least one table, whatever other statements fail.
   */
  lemma SqliteNeverLoses(r: Run, i: nat, o: nat)
    requires r.FromStart() && r.NothingDropped() && i < |r.states|
    requires var h := r.states[i].hist; o in h.born && o !in h.acked && o !in h.purged
    ensures RowsOf(r.states[i], o) != {} || DeadRowsOf(r.states[i], o) != {}
  {
    var s, l := r.states[i], LedgerOf(r.states[i]);
    RunAccounts(r, i);
    assert Accounted(l, o);
    if id :| id in l.live && l.live[id].origin == o {
      assert id in RowsOf(s, o);
    } else if d :| d in l.dead && l.dead[d].origin == o {
      assert d in DeadRowsOf(s, o);
    }
  }

  // ---- late workers ----

  predicate ByWorker(s: State, step: Step) {
    match step
    case Ack(w) => w in s.jobs
    case Unlock(w) => w in s.jobs
    case NackRead(w) => w in s.jobs
    case NackWrite(w, _) => w in s.jobs
    case Copy(w, _, _) => w in s.jobs
    case DeleteCopied(w) => w in s.jobs
    case Abandon(w) => w in s.jobs
    case _ => false
  }

  /** However late, a worker's ack, nack or unlock changes no row but the one it fetched, and removes no dead letter. */
  lemma WorkerTouchesOnlyItsRow(cfg: Config, s: State, step: Step, id: nat, d: nat)
    requires Booked(s) && Enabled(cfg, s, step) && ByWorker(s, step)
    requires id != s.jobs[step.w].id
    ensures var t, t' := s.tables, Next(cfg, s, step).tables;
            && (id in t.messages <==> id in t'.messages)
            && (id in t.messages ==> t'.messages[id] == t.messages[id])
            && (d in t.dead ==> d in t'.dead && t'.dead[d] == t.dead[d])
            && (d in t'.dead && d !in t.dead ==>
                  && (step.NackWrite? || step.Copy?) && s.jobs[step.w].id in t.messages
                  && (var row := t.messages[s.jobs[step.w].id];
                      t'.dead[d] == DeadRow(row.uuid, row.topic, row.payload, row.metadata, "max retries exceeded",
                                            DatabaseTime(cfg.dialect, step.at), row.retryCount)))
  {
  }

  /** From s to s', row id stands for the same message, and is not put back once it is gone. */
  predicate SameRow(s: State, s': State, id: nat) {
    && id in s'.hist.origin
    && OriginOf(s'.hist, id) == OriginOf(s.hist, id)
    && FirstOf(s'.hist, id) == FirstOf(s.hist, id)
    && (id in s'.tables.messages ==>
          && id in s.tables.messages
          && ContentOf(s'.tables.messages[id]) == ContentOf(s.tables.messages[id])
          && s'.tables.messages[id].uuid == s.tables.messages[id].uuid)
  }

  lemma SameRowNext(cfg: Config, s: State, step: Step, id: nat)
    requires Booked(s) && Enabled(cfg, s, step) && id in s.hist.origin
    ensures SameRow(s, Next(cfg, s, step), id)
  {
    if !Inserts(step) {
      OnlyInsertionsAddRows(cfg, s, step);
    }
  }

  /** A row id stands for the same message for ever: a late worker can only meet the row it fetched, or none. */
  lemma {:induction false} SameRowForEver(r: Run, i: nat, j: nat, id: nat)
    requires r.FromStart() && i <= j < |r.states| && id in r.states[i].hist.origin
    ensures SameRow(r.states[i], r.states[j], id)
    decreases j
  {
    if i < j {
      SameRowForEver(r, i, j - 1, id);
      RunWellFormed(r, j - 1);
      assert r.StepAt(j - 1);
      SameRowNext(r.cfg, r.states[j - 1], r.steps[j - 1], id);
    }
  }
}
