/** When SQLite's two-statement move loses a message: exactly if it deletes a row whose copy it could not insert. */
module Losses {
  import opened QueueMachine
  import opened Conservation
  import opened Leases

  // ---- a DELETE after a failed INSERT ----

  /** The INSERT of worker w's move, with this result. */
  predicate Copies(step: Step, w: nat, ok: bool) {
    step.Copy? && step.w == w && step.ok == ok
  }

  /** The delivery that deletes its row in step i had failed to copy it in step k. */
  ghost predicate DeletesUncopied(r: Run, k: nat, i: nat)
    requires |r.states| == |r.steps| + 1
  {
    && k < i < |r.steps| && r.steps[i].DeleteCopied? && Copies(r.steps[k], r.steps[i].w, false)
    && forall j: nat :: k < j <= i ==> r.steps[i].w in r.states[j].jobs && r.states[j].jobs[r.steps[i].w].Copied?
  }

  lemma CopiedBefore(cfg: Config, s: State, step: Step, w: nat)
    requires Enabled(cfg, s, step) && w in Next(cfg, s, step).jobs && Next(cfg, s, step).jobs[w].Copied?
    ensures Copies(step, w, Next(cfg, s, step).jobs[w].made)
            || (w in s.jobs && s.jobs[w] == Next(cfg, s, step).jobs[w] && !(step.Copy? && step.w == w))
  {
  }

  /** A worker past its INSERT has been there since, and remembers what became of it. */
  lemma {:induction false} CopiedSince(r: Run, i: nat, w: nat) returns (k: nat)
    requires r.FromStart() && i < |r.states| && w in r.states[i].jobs && r.states[i].jobs[w].Copied?
    ensures k < i && Copies(r.steps[k], w, r.states[i].jobs[w].made)
    ensures forall j: nat :: k < j <= i ==> w in r.states[j].jobs && r.states[j].jobs[w] == r.states[i].jobs[w]
  {
    assert i > 0;
    assert r.StepAt(i - 1);
    CopiedBefore(r.cfg, r.states[i - 1], r.steps[i - 1], w);
    k := i - 1;
    if !Copies(r.steps[i - 1], w, r.states[i].jobs[w].made) {
      k := CopiedSince(r, i - 1, w);
    }
  }

  lemma CopiesFromNacking(r: Run, k: nat, w: nat)
    requires r.Valid() && k < |r.steps| && r.steps[k].Copy? && r.steps[k].w == w
    ensures w in r.states[k].jobs && r.states[k].jobs[w].Nacking?
  {
    assert r.StepAt(k);
  }

  lemma DropsIff(r: Run, i: nat)
    requires r.FromStart() && i < |r.steps|
    ensures Drops(r.states[i], r.steps[i]) <==> exists k: nat :: DeletesUncopied(r, k, i)
  {
    assert r.StepAt(i);
    if r.steps[i].DeleteCopied? {
      var w := r.steps[i].w;
      var k' := CopiedSince(r, i, w);
      CopiesFromNacking(r, k', w);
      if Drops(r.states[i], r.steps[i]) {
        assert DeletesUncopied(r, k', i);
      }
      if k: nat :| DeletesUncopied(r, k, i) {
        CopiesFromNacking(r, k, w);
        assert k == k';
      }
    }
  }

  // ---- and what it costs ----

  lemma PlacedIffAccounted(s: State, o: nat)
    ensures Places(s, o) > 0 <==> Accounted(LedgerOf(s), o)
  {
    var l := LedgerOf(s);
    assert forall id :: id in RowsOf(s, o) <==> id in l.live && l.live[id].origin == o;
    assert forall d :: d in DeadRowsOf(s, o) <==> d in l.dead && l.dead[d].origin == o;
    if id :| id in l.live && l.live[id].origin == o {
      assert id in RowsOf(s, o);
    }
    if d :| d in l.dead && l.dead[d].origin == o {
      assert d in DeadRowsOf(s, o);
    }
  }

  lemma DropLedger(cfg: Config, s: State, step: Step)
    requires Enabled(cfg, s, step) && Drops(s, step)
    ensures var l := LedgerOf(s); LedgerOf(Next(cfg, s, step)) == l.(live := l.live - {s.jobs[step.w].id})
  {
    HiddenWithout(s.jobs, step.w);
    LiveWithout(s.tables.messages, s.hist.origin, HiddenIds(s.jobs), s.jobs[step.w].id);
  }

  /** While leases are kept, the row was the only place its message was in. */
  lemma DropLoses(cfg: Config, s: State, step: Step) returns (o: nat)
    requires Enabled(cfg, s, step) && Drops(s, step) && Exclusive(s) && SinglePlace(LedgerOf(s))
    ensures o in Next(cfg, s, step).hist.born && Places(Next(cfg, s, step), o) == 0
  {
    var id, l := s.jobs[step.w].id, LedgerOf(s);
    assert HoldsLock(s, s.jobs[step.w]);
    ExclusiveHidesAlone(s);
    assert id in l.live;
    o := l.live[id].origin;
    DropLedger(cfg, s, step);
    PlacedIffAccounted(Next(cfg, s, step), o);
  }

  lemma PrefixOfRun(r: Run, i: nat) returns (p: Run)
    requires r.FromStart() && r.KeepsLeases() && r.DeletesSucceed() && i < |r.states|
    requires forall j: nat :: j < i ==> !Drops(r.states[j], r.steps[j])
    ensures p == Run(r.cfg, r.states[..i + 1], r.steps[..i])
    ensures p.FromStart() && p.KeepsLeases() && p.MovesSucceed()
  {
    p := Run(r.cfg, r.states[..i + 1], r.steps[..i]);
    forall j: nat | j < |p.steps|
      ensures p.StepAt(j) && MoveSucceeds(p.states[j], p.steps[j])
    {
      assert r.StepAt(j) && !Doubles(r.states[j], r.steps[j]);
    }
    forall j: nat | j < |p.states|
      ensures InTime(p.states[j])
    {
      assert InTime(r.states[j]);
    }
  }

  lemma SingleBeforeDrop(r: Run, i: nat)
    requires r.FromStart() && r.KeepsLeases() && r.DeletesSucceed() && i < |r.states|
    requires forall j: nat :: j < i ==> !Drops(r.states[j], r.steps[j])
    ensures Exclusive(r.states[i]) && SinglePlace(LedgerOf(r.states[i]))
  {
    var p := PrefixOfRun(r, i);
    forall j: nat | j < |p.states|
      ensures HiddenAlone(p.states[j])
    {
      LeasesExclude(p, j);
      ExclusiveHidesAlone(p.states[j]);
    }
    LeasesExclude(p, i);
    RunSinglePlace(p, i);
  }

  lemma {:induction false} FirstDrop(r: Run, i: nat) returns (first: nat)
    requires |r.states| == |r.steps| + 1 && i < |r.steps| && Drops(r.states[i], r.steps[i])
    ensures first <= i && Drops(r.states[first], r.steps[first])
    ensures forall j: nat :: j < first ==> !Drops(r.states[j], r.steps[j])
  {
    first := i;
    if j: nat :| j < i && Drops(r.states[j], r.steps[j]) {
      first := FirstDrop(r, j);
    }
  }

  /** Every published message is, in every state, in some place. */
  ghost predicate NothingLost(r: Run) {
    forall i: nat, o: nat :: i < |r.states| && o in r.states[i].hist.born ==> Places(r.states[i], o) > 0
  }

  lemma DroppedIsLost(r: Run, i: nat)
    requires r.FromStart() && r.KeepsLeases() && r.DeletesSucceed() && i < |r.steps| && Drops(r.states[i], r.steps[i])
    ensures !NothingLost(r)
  {
    var first := FirstDrop(r, i);
    SingleBeforeDrop(r, first);
    assert r.StepAt(first);
    var o := DropLoses(r.cfg, r.states[first], r.steps[first]);
    assert Places(r.states[first + 1], o) == 0;
  }

  /** In every interleaving: what is not dropped is not lost. */
  lemma UndroppedIsKept(r: Run)
    requires r.FromStart() && r.NothingDropped()
    ensures NothingLost(r)
  {
    forall i: nat, o: nat | i < |r.states| && o in r.states[i].hist.born
      ensures Places(r.states[i], o) > 0
    {
      RunAccounts(r, i);
      PlacedIffAccounted(r.states[i], o);
    }
  }

  /**
   With leases kept and no DELETE of a copied row failing, nothing is ever lost if and only if no
   delivery deletes its row after it failed to copy it.
   */
  lemma NothingLostIff(r: Run)
    requires r.FromStart() && r.KeepsLeases() && r.DeletesSucceed()
    ensures NothingLost(r) <==> !exists k: nat, i: nat :: DeletesUncopied(r, k, i)
  {
    forall i: nat | i < |r.steps|
      ensures Drops(r.states[i], r.steps[i]) <==> exists k: nat :: DeletesUncopied(r, k, i)
    {
      DropsIff(r, i);
    }
    if r.NothingDropped() {
      UndroppedIsKept(r);
    } else {
      var i: nat :| i < |r.steps| && Drops(r.states[i], r.steps[i]);
      DroppedIsLost(r, i);
    }
  }
}
