/**
  One reconciliation pass over one table (the shape shared by syncUsersBidirectional,
  syncQuestionsBidirectional, syncPapersBidirectional and syncExamResultsBidirectional):
  fetch the three copies of the table, take the union of their ids, resolve each id with
  determineWinner, and upsert the winner into every replica whose copy is missing or not
  `equals` to it.

  The table's update-time accessor and its `equals` are parameters. A pass is told which
  (replica, id) writes throw: the user pass swallows each such failure and carries on,
  the other passes stop at the first one and let it propagate.
*/
module Reconcile {
  import opened Wrappers
  import opened Entities
  import Resolver
  import Tables

  /** The three replicas' copies of one table, keyed by id. */
  datatype Snap<T> = Snap(m: map<int, T>, o: map<int, T>, s: map<int, T>) {
    function At(r: Replica): map<int, T>
    {
      match r
      case MySql => m
      case Oracle => o
      case SqlServer => s
    }

    function With(r: Replica, t: map<int, T>): (sn: Snap<T>)
      ensures sn.At(r) == t
      ensures forall r' :: r' != r ==> sn.At(r') == At(r')
    {
      match r
      case MySql => this.(m := t)
      case Oracle => this.(o := t)
      case SqlServer => this.(s := t)
    }

    /** Every id present in at least one replica. */
    function Ids(): set<int>
    {
      m.Keys + o.Keys + s.Keys
    }

    /** `xM.get(id)`: the replica's copy, or null. */
    function Get(r: Replica, id: int): Option<T>
    {
      if id in At(r) then Some(At(r)[id]) else None
    }
  }


  /** The replica whose copy of `id` wins; null exactly for ids no replica holds. */
  function Winner<T>(sn: Snap<T>, id: int, time: T -> Stamp): (w: Option<Replica>)
    ensures w.None? <==> id !in sn.Ids()
    ensures w.Some? ==> id in sn.At(w.value)
  {
    var w := Resolver.DetermineWinner(sn.Get(MySql, id), sn.Get(Oracle, id), sn.Get(SqlServer, id), time);
    assert w.Some? ==> Resolver.Candidate(sn.Get(MySql, id), sn.Get(Oracle, id), sn.Get(SqlServer, id), w.value) == sn.Get(w.value, id);
    w
  }

  /** A choice of winning replica for every id of the union; the chosen replica holds a copy of the id. */
  predicate Chooses<T>(sn: Snap<T>, ch: map<int, Replica>)
  {
    ch.Keys == sn.Ids() && forall id :: id in ch ==> id in sn.At(ch[id])
  }

  /** The resolver's choice: determineWinner for every id of the union. */
  function Winners<T>(sn: Snap<T>, time: T -> Stamp): (ch: map<int, Replica>)
    ensures Chooses(sn, ch)
    ensures forall id :: id in ch ==> Winner(sn, id, time) == Some(ch[id])
  {
    map id | id in sn.Ids() :: Winner(sn, id, time).value
  }

  /** The winning copy of an id. */
  function WinnerRow<T>(sn: Snap<T>, ch: map<int, Replica>, id: int): T
    requires Chooses(sn, ch) && id in ch
  {
    sn.At(ch[id])[id]
  }

  /** `copy == null || !copy.equals(winner)`: replica `r` must receive the winner. */
  predicate Needs<T>(sn: Snap<T>, ch: map<int, Replica>, r: Replica, id: int, same: (T, T) -> bool)
    requires Chooses(sn, ch) && id in ch
  {
    id !in sn.At(r) || !same(sn.At(r)[id], WinnerRow(sn, ch, id))
  }

  /** The writes a complete pass makes into the replicas `rs` for the ids `ids`. */
  function NeededIn<T>(sn: Snap<T>, ch: map<int, Replica>, same: (T, T) -> bool, rs: set<Replica>, ids: set<int>): (n: set<(Replica, int)>)
    requires Chooses(sn, ch)
    ensures forall r, id :: (r, id) in n <==> r in rs && id in ids && id in ch && Needs(sn, ch, r, id, same)
  {
    set r, id | r in rs && id in ids && id in ch && Needs(sn, ch, r, id, same) :: (r, id)
  }

  /** Every write a complete pass makes, as (replica, id) pairs. */
  function Needed<T>(sn: Snap<T>, ch: map<int, Replica>, same: (T, T) -> bool): (n: set<(Replica, int)>)
    requires Chooses(sn, ch)
    ensures forall r, id :: (r, id) in n <==> id in ch && Needs(sn, ch, r, id, same)
  {
    var n := NeededIn(sn, ch, same, AllReplicas, ch.Keys);
    assert forall r, id :: id in ch && Needs(sn, ch, r, id, same) ==> (r, id) in n by {
      forall r, id | id in ch && Needs(sn, ch, r, id, same) ensures (r, id) in n {
        assert r in AllReplicas;
      }
    }
    n
  }

  /** The ids written into replica `r`. */
  function WrittenTo(written: set<(Replica, int)>, r: Replica): (ids: set<int>)
    ensures forall id :: id in ids <==> (r, id) in written
  {
    set p | p in written && p.0 == r :: p.1
  }

  /** Replica `r`'s table once the winners of `ids` have been upserted into it. */
  function Applied<T>(sn: Snap<T>, ch: map<int, Replica>, r: Replica, ids: set<int>): (t: map<int, T>)
    requires Chooses(sn, ch) && ids <= ch.Keys
    ensures t.Keys == sn.At(r).Keys + ids
  {
    map id | id in sn.At(r).Keys + ids :: if id in ids then WinnerRow(sn, ch, id) else sn.At(r)[id]
  }

  lemma AppliedStep<T>(sn: Snap<T>, ch: map<int, Replica>, r: Replica, ids: set<int>, id: int)
    requires Chooses(sn, ch) && ids <= ch.Keys && id in ch
    ensures Applied(sn, ch, r, ids + {id}) == Tables.Upsert(Applied(sn, ch, r, ids), id, WinnerRow(sn, ch, id))
  {
  }

  /** Each replica's ids are among the union. */
  lemma IdsCover<T>(sn: Snap<T>, r: Replica)
    ensures sn.At(r).Keys <= sn.Ids()
  {
  }

  /** A non-empty set of ids has an element, which the iteration over the id union visits next. */
  lemma Inhabited(ids: set<int>)
    ensures ids != {} ==> exists id :: id in ids
  {
    if forall id :: id !in ids {
      assert ids == {};
    }
  }

  /** Each replica's table is the snapshot with the winners of the written ids upserted. */
  ghost predicate Reflects<T>(sn: Snap<T>, ch: map<int, Replica>, out: Snap<T>, written: set<(Replica, int)>)
    requires Chooses(sn, ch)
  {
    forall r :: WrittenTo(written, r) <= ch.Keys && out.At(r) == Applied(sn, ch, r, WrittenTo(written, r))
  }

  /** One `xRepo.upsert(winner)` into replica `r`. */
  method Write<T>(sn: Snap<T>, ch: map<int, Replica>, out: Snap<T>, written: set<(Replica, int)>, r: Replica, id: int)
    returns (out': Snap<T>, written': set<(Replica, int)>)
    requires Chooses(sn, ch) && id in ch && Reflects(sn, ch, out, written)
    ensures written' == written + {(r, id)}
    ensures Reflects(sn, ch, out', written')
  {
    AppliedStep(sn, ch, r, WrittenTo(written, r), id);
    assert WrittenTo(written + {(r, id)}, r) == WrittenTo(written, r) + {id};
    assert forall r' :: r' != r ==> WrittenTo(written + {(r, id)}, r') == WrittenTo(written, r');
    out' := out.With(r, Tables.Upsert(out.At(r), id, WinnerRow(sn, ch, id)));
    written' := written + {(r, id)};
  }

  /**
    `if (copy == null || !copy.equals(winner)) repo.upsert(winner)` for replica `r`: the
    write is made when needed, unless it throws; a thrown write is skipped when `swallow`
    and otherwise stops the pass.
  */
  method Visit<T(==)>(sn: Snap<T>, ch: map<int, Replica>, same: (T, T) -> bool, failing: set<(Replica, int)>, swallow: bool,
                      id: int, r: Replica, out: Snap<T>, written: set<(Replica, int)>)
    returns (out': Snap<T>, written': set<(Replica, int)>, stop: Option<(Replica, int)>)
    requires Chooses(sn, ch) && id in ch && Reflects(sn, ch, out, written)
    ensures Reflects(sn, ch, out', written')
    ensures stop.None? ==> written' == if Needs(sn, ch, r, id, same) && (r, id) !in failing then written + {(r, id)} else written
    ensures stop.None? && !swallow ==> !(Needs(sn, ch, r, id, same) && (r, id) in failing)
    ensures stop.Some? ==> !swallow && stop == Some((r, id)) && Needs(sn, ch, r, id, same) && (r, id) in failing && written' == written
  {
    out', written', stop := out, written, None;
    if id !in sn.At(r) || !same(sn.At(r)[id], WinnerRow(sn, ch, id)) {
      if (r, id) in failing {
        if !swallow {
          stop := Some((r, id));
        }
      } else {
        out', written' := Write(sn, ch, out, written, r, id);
      }
    }
  }

  /** The writes one id needs, one per replica that must receive its winner. */
  lemma NeededForId<T>(sn: Snap<T>, ch: map<int, Replica>, same: (T, T) -> bool, id: int)
    requires Chooses(sn, ch) && id in ch
    ensures NeededIn(sn, ch, same, AllReplicas, {id})
         == (if Needs(sn, ch, MySql, id, same) then {(MySql, id)} else {})
          + (if Needs(sn, ch, Oracle, id, same) then {(Oracle, id)} else {})
          + (if Needs(sn, ch, SqlServer, id, same) then {(SqlServer, id)} else {})
  {
  }

  /** The body of the per-id loop: take the winner of `id`, then visit MySQL, Oracle and SQL Server in turn. */
  method ResolveId<T(==)>(sn: Snap<T>, ch: map<int, Replica>, same: (T, T) -> bool, failing: set<(Replica, int)>, swallow: bool,
                          id: int, out: Snap<T>, written: set<(Replica, int)>)
    returns (out': Snap<T>, written': set<(Replica, int)>, stop: Option<(Replica, int)>)
    requires Chooses(sn, ch) && id in ch && Reflects(sn, ch, out, written)
    ensures Reflects(sn, ch, out', written')
    ensures written <= written' <= written + (NeededIn(sn, ch, same, AllReplicas, {id}) - failing)
    ensures stop.None? ==> written' == written + (NeededIn(sn, ch, same, AllReplicas, {id}) - failing)
    ensures stop.None? && !swallow ==> NeededIn(sn, ch, same, AllReplicas, {id}) !! failing
    ensures stop.Some? ==> !swallow && stop.value in NeededIn(sn, ch, same, AllReplicas, {id}) && stop.value in failing
  {
    NeededForId(sn, ch, same, id);
    out', written', stop := Visit(sn, ch, same, failing, swallow, id, MySql, out, written);
    if stop.Some? {
      return;
    }
    out', written', stop := Visit(sn, ch, same, failing, swallow, id, Oracle, out', written');
    if stop.Some? {
      return;
    }
    out', written', stop := Visit(sn, ch, same, failing, swallow, id, SqlServer, out', written');
  }

  lemma NeededInSplit<T>(sn: Snap<T>, ch: map<int, Replica>, same: (T, T) -> bool, done: set<int>, id: int)
    requires Chooses(sn, ch)
    ensures NeededIn(sn, ch, same, AllReplicas, done + {id})
         == NeededIn(sn, ch, same, AllReplicas, done) + NeededIn(sn, ch, same, AllReplicas, {id})
  {
  }

  lemma NeededInWithin<T>(sn: Snap<T>, ch: map<int, Replica>, same: (T, T) -> bool, ids: set<int>)
    requires Chooses(sn, ch)
    ensures NeededIn(sn, ch, same, AllReplicas, ids) <= Needed(sn, ch, same)
  {
  }

  lemma NeededIsNeededInAll<T>(sn: Snap<T>, ch: map<int, Replica>, same: (T, T) -> bool)
    requires Chooses(sn, ch)
    ensures Needed(sn, ch, same) == NeededIn(sn, ch, same, AllReplicas, ch.Keys)
  {
    forall p | p in Needed(sn, ch, same) ensures p in NeededIn(sn, ch, same, AllReplicas, ch.Keys) {
      assert p.0 in AllReplicas;
    }
  }

  /**
    A pass over one table. `failing` lists the writes that throw; with `swallow` each is
    skipped, otherwise the pass stops at the first one (`stop`). The result says which
    writes were made and what each replica's table is afterwards.
  */
  method Pass<T(==)>(sn: Snap<T>, ch: map<int, Replica>, same: (T, T) -> bool, failing: set<(Replica, int)>, swallow: bool)
    returns (out: Snap<T>, written: set<(Replica, int)>, stop: Option<(Replica, int)>)
    requires Chooses(sn, ch)
    ensures written <= Needed(sn, ch, same) && written !! failing
    ensures forall r :: WrittenTo(written, r) <= ch.Keys && out.At(r) == Applied(sn, ch, r, WrittenTo(written, r))
    ensures swallow ==> stop.None? && written == Needed(sn, ch, same) - failing
    ensures !swallow ==> (stop.None? <==> Needed(sn, ch, same) !! failing)
    ensures !swallow && stop.None? ==> written == Needed(sn, ch, same)
    ensures stop.Some? ==> stop.value in Needed(sn, ch, same) && stop.value in failing
  {
    out, written, stop := sn, {}, None;
    var todo := sn.Ids();
    ghost var done: set<int> := {};
    while todo != {}
      invariant todo <= ch.Keys && done == ch.Keys - todo && stop.None?
      invariant Reflects(sn, ch, out, written)
      invariant written == NeededIn(sn, ch, same, AllReplicas, done) - failing
      invariant !swallow ==> NeededIn(sn, ch, same, AllReplicas, done) !! failing
      decreases todo
    {
      Inhabited(todo);
      var id :| id in todo;
      NeededInSplit(sn, ch, same, done, id);
      out, written, stop := ResolveId(sn, ch, same, failing, swallow, id, out, written);
      if stop.Some? {
        NeededInWithin(sn, ch, same, done + {id});
        return;
      }
      todo := todo - {id};
      done := done + {id};
    }
    NeededIsNeededInAll(sn, ch, same);
  }

  // ---------------------------------------------------------------
  // What a complete pass achieves
  // ---------------------------------------------------------------

  /** Every replica's table once the writes `written` have been made. */
  function After<T>(sn: Snap<T>, ch: map<int, Replica>, written: set<(Replica, int)>): (out: Snap<T>)
    requires Chooses(sn, ch) && forall p :: p in written ==> p.1 in ch
    ensures forall r :: out.At(r) == Applied(sn, ch, r, WrittenTo(written, r))
  {
    Snap(Applied(sn, ch, MySql, WrittenTo(written, MySql)),
         Applied(sn, ch, Oracle, WrittenTo(written, Oracle)),
         Applied(sn, ch, SqlServer, WrittenTo(written, SqlServer)))
  }

  /** Making no write leaves every replica as it was. */
  lemma AfterNothing<T>(sn: Snap<T>, ch: map<int, Replica>)
    requires Chooses(sn, ch)
    ensures After(sn, ch, {}) == sn
  {
    var out := After(sn, ch, {});
    forall r ensures out.At(r) == sn.At(r) {
      assert WrittenTo({}, r) == {};
    }
    assert out.At(MySql) == sn.m && out.At(Oracle) == sn.o && out.At(SqlServer) == sn.s;
  }

  /** Two snapshots with the same table in every replica are equal. */
  lemma SnapsAgree<T>(a: Snap<T>, b: Snap<T>)
    requires forall r :: a.At(r) == b.At(r)
    ensures a == b
  {
    assert a.At(MySql) == b.At(MySql) && a.At(Oracle) == b.At(Oracle) && a.At(SqlServer) == b.At(SqlServer);
  }

  /** The tables a pass leaves behind are the snapshot with exactly its writes applied. */
  lemma PassLeavesAfter<T>(sn: Snap<T>, ch: map<int, Replica>, out: Snap<T>, written: set<(Replica, int)>)
    requires Chooses(sn, ch) && forall p :: p in written ==> p.1 in ch
    requires forall r :: out.At(r) == Applied(sn, ch, r, WrittenTo(written, r))
    ensures out == After(sn, ch, written)
  {
    SnapsAgree(out, After(sn, ch, written));
  }

  /** The replica a winner comes from never needs that winner written back. */
  lemma WinnerReplicaNotNeeded<T>(sn: Snap<T>, ch: map<int, Replica>, same: (T, T) -> bool, id: int)
    requires Chooses(sn, ch) && id in ch
    requires forall a :: same(a, a)
    ensures !Needs(sn, ch, ch[id], id, same)
    ensures (ch[id], id) !in Needed(sn, ch, same)
  {
    assert same(sn.At(ch[id])[id], WinnerRow(sn, ch, id));
  }

  /** An id that no replica holds is in no replica after any writes. */
  lemma AfterKeepsAbsent<T>(sn: Snap<T>, ch: map<int, Replica>, written: set<(Replica, int)>, id: int)
    requires Chooses(sn, ch) && forall p :: p in written ==> p.1 in ch
    requires id !in sn.Ids()
    ensures forall r :: id !in After(sn, ch, written).At(r)
  {
    AfterIds(sn, ch, written);
    var out := After(sn, ch, written);
    assert out.At(MySql) == out.m && out.At(Oracle) == out.o && out.At(SqlServer) == out.s;
  }

  /** The tables after a complete pass. */
  function Completed<T>(sn: Snap<T>, ch: map<int, Replica>, same: (T, T) -> bool): (out: Snap<T>)
    requires Chooses(sn, ch)
  {
    After(sn, ch, Needed(sn, ch, same))
  }

  /** The table every replica should hold: the winner of every id in the union. */
  function Merged<T>(sn: Snap<T>, ch: map<int, Replica>): (t: map<int, T>)
    requires Chooses(sn, ch)
    ensures t.Keys == sn.Ids()
  {
    map id | id in ch :: WinnerRow(sn, ch, id)
  }

  /** A replica that a complete pass does not write already holds the winner. */
  lemma UnwrittenHoldsWinner<T>(sn: Snap<T>, ch: map<int, Replica>, same: (T, T) -> bool, r: Replica, id: int)
    requires Chooses(sn, ch) && id in ch
    requires forall a, b :: same(a, b) <==> a == b
    requires id !in WrittenTo(Needed(sn, ch, same), r)
    ensures id in sn.At(r) && sn.At(r)[id] == WinnerRow(sn, ch, id)
  {
    assert !Needs(sn, ch, r, id, same);
  }

  /** Once every id left unwritten already holds its winner, replica `r` holds exactly the merged table. */
  lemma AppliedEverything<T>(sn: Snap<T>, ch: map<int, Replica>, r: Replica, ids: set<int>)
    requires Chooses(sn, ch) && ids <= ch.Keys
    requires forall id :: id in ch && id !in ids ==> id in sn.At(r) && sn.At(r)[id] == WinnerRow(sn, ch, id)
    ensures Applied(sn, ch, r, ids) == Merged(sn, ch)
  {
    var t := Applied(sn, ch, r, ids);
    assert sn.At(r).Keys <= sn.Ids();
    forall id | id in ch ensures id in t {
    }
    assert t.Keys == ch.Keys;
  }

  /**
    With Lombok's field-by-field equality, a complete pass leaves all three replicas
    holding exactly the merged table.
  */
  lemma CompletePassConverges<T>(sn: Snap<T>, ch: map<int, Replica>, same: (T, T) -> bool, r: Replica)
    requires Chooses(sn, ch)
    requires forall a, b :: same(a, b) <==> a == b
    ensures Completed(sn, ch, same).At(r) == Merged(sn, ch)
  {
    var ids := WrittenTo(Needed(sn, ch, same), r);
    forall id | id in ch && id !in ids ensures id in sn.At(r) && sn.At(r)[id] == WinnerRow(sn, ch, id) {
      UnwrittenHoldsWinner(sn, ch, same, r, id);
    }
    AppliedEverything(sn, ch, r, ids);
  }

  /** After a complete pass every replica holds every id, with a copy `same` as the winner. */
  lemma CompletedAgreesWithWinner<T>(sn: Snap<T>, ch: map<int, Replica>, same: (T, T) -> bool, r: Replica, id: int)
    requires Chooses(sn, ch)
    requires forall a :: same(a, a)
    requires id in ch
    ensures id in Completed(sn, ch, same).At(r)
    ensures same(Completed(sn, ch, same).At(r)[id], WinnerRow(sn, ch, id))
  {
    assert id !in WrittenTo(Needed(sn, ch, same), r) ==> !Needs(sn, ch, r, id, same);
  }

  /**
    After a complete pass a replica's copy of an id is the winner itself, or the copy it
    already held, which was `same` as the winner.
  */
  lemma CompletedCopy<T>(sn: Snap<T>, ch: map<int, Replica>, same: (T, T) -> bool, r: Replica, id: int)
    requires Chooses(sn, ch) && id in ch
    ensures id in Completed(sn, ch, same).At(r)
    ensures var x := Completed(sn, ch, same).At(r)[id];
      x == WinnerRow(sn, ch, id) || (id in sn.At(r) && x == sn.At(r)[id] && same(x, WinnerRow(sn, ch, id)))
  {
    assert id !in WrittenTo(Needed(sn, ch, same), r) ==> !Needs(sn, ch, r, id, same);
  }

  /** A replica whose copy is `same` as the winning copy is not written. */
  lemma NotNeededWhenSame<T>(sn: Snap<T>, ch: map<int, Replica>, same: (T, T) -> bool, r: Replica, id: int)
    requires Chooses(sn, ch) && id in ch && id in sn.At(r)
    requires same(sn.At(r)[id], sn.At(ch[id])[id])
    ensures (r, id) !in Needed(sn, ch, same)
  {
  }

  /** After a complete pass each replica holds exactly the ids of the union. */
  lemma CompletedHoldsAll<T>(sn: Snap<T>, ch: map<int, Replica>, same: (T, T) -> bool, r: Replica)
    requires Chooses(sn, ch)
    requires forall a :: same(a, a)
    ensures Completed(sn, ch, same).At(r).Keys == sn.Ids()
  {
    var out := Completed(sn, ch, same);
    AfterIds(sn, ch, Needed(sn, ch, same));
    forall id | id in ch ensures id in out.At(r) {
      CompletedAgreesWithWinner(sn, ch, same, r, id);
    }
    IdsCover(out, r);
  }

  /** Writing winners adds no id that was not already somewhere and drops none. */
  lemma AfterIds<T>(sn: Snap<T>, ch: map<int, Replica>, written: set<(Replica, int)>)
    requires Chooses(sn, ch) && forall p :: p in written ==> p.1 in ch
    ensures After(sn, ch, written).Ids() == sn.Ids()
  {
    var out := After(sn, ch, written);
    assert out.m.Keys == sn.m.Keys + WrittenTo(written, MySql);
    assert out.o.Keys == sn.o.Keys + WrittenTo(written, Oracle);
    assert out.s.Keys == sn.s.Keys + WrittenTo(written, SqlServer);
    forall id | id in sn.Ids() ensures id in out.Ids() {
    }
  }

  /** If every replica holds a copy of `id` equivalent to `w`, no replica needs the winner of `id`, whichever copy wins. */
  lemma NothingNeededWhenAllAgree<T>(out: Snap<T>, ch: map<int, Replica>, same: (T, T) -> bool, r: Replica, id: int, w: T)
    requires Chooses(out, ch) && id in ch
    requires forall r' :: id in out.At(r') && same(out.At(r')[id], w)
    requires forall a, b :: same(a, b) ==> same(b, a)
    requires forall a, b, c :: same(a, b) && same(b, c) ==> same(a, c)
    ensures !Needs(out, ch, r, id, same)
  {
    var x, y := out.At(r)[id], out.At(ch[id])[id];
    assert same(x, w) && same(y, w);
    assert same(w, y);
  }

  /**
    After a complete pass, no replica needs the winner of an id, whichever replica the
    resolver then picks (`ch2` is any choice on the new tables).
  */
  lemma NothingNeededAfterComplete<T>(sn: Snap<T>, ch: map<int, Replica>, same: (T, T) -> bool, ch2: map<int, Replica>, r: Replica, id: int)
    requires Chooses(sn, ch) && Chooses(Completed(sn, ch, same), ch2)
    requires forall a :: same(a, a)
    requires forall a, b :: same(a, b) ==> same(b, a)
    requires forall a, b, c :: same(a, b) && same(b, c) ==> same(a, c)
    requires id in ch2
    ensures !Needs(Completed(sn, ch, same), ch2, r, id, same)
  {
    var out := Completed(sn, ch, same);
    AfterIds(sn, ch, Needed(sn, ch, same));
    assert id in ch;
    forall r' ensures id in out.At(r') && same(out.At(r')[id], WinnerRow(sn, ch, id)) {
      CompletedAgreesWithWinner(sn, ch, same, r', id);
    }
    NothingNeededWhenAllAgree(out, ch2, same, r, id, WinnerRow(sn, ch, id));
  }

  /**
    Idempotence: when `equals` is an equivalence relation, a second pass right after a
    complete one finds nothing to write.
  */
  lemma SecondPassWritesNothing<T>(sn: Snap<T>, ch: map<int, Replica>, same: (T, T) -> bool, ch2: map<int, Replica>)
    requires Chooses(sn, ch) && Chooses(Completed(sn, ch, same), ch2)
    requires forall a :: same(a, a)
    requires forall a, b :: same(a, b) ==> same(b, a)
    requires forall a, b, c :: same(a, b) && same(b, c) ==> same(a, c)
    ensures Needed(Completed(sn, ch, same), ch2, same) == {}
  {
    var out := Completed(sn, ch, same);
    if Needed(out, ch2, same) != {} {
      var p :| p in Needed(out, ch2, same);
      NothingNeededAfterComplete(sn, ch, same, ch2, p.0, p.1);
    }
  }
}
