/**
  determineWinner: of up to three copies of one row, the one with the latest update
  time wins. The comparison is strict, so equal times keep the copy seen first in the
  order MySQL, Oracle, SQL Server; a non-null time beats a null one.
*/
module Resolver {
  import opened Wrappers
  import opened Entities

  /** `t != null && (u == null || t.isAfter(u))`: the test that lets a candidate replace the current winner. */
  predicate After(t: Stamp, u: Stamp)
  {
    t.Some? && (u.None? || t.value > u.value)
  }

  /**
    The loop of determineWinner over the candidates in order, as a fold over a prefix.
    `c[i]` is None for a missing copy, otherwise the copy's (nullable) update time.
    The result is the index of the winning copy.
  */
  function Pick(c: seq<Option<Stamp>>): (k: Option<nat>)
    ensures k.Some? ==> k.value < |c| && c[k.value].Some?
    decreases |c|
  {
    if |c| == 0 then None
    else
      var i := |c| - 1;
      var acc := Pick(c[..i]);
      if c[i].None? then acc
      else if acc.None? then Some(i)
      else if After(c[i].value, c[acc.value].value) then Some(i)
      else acc
  }

  /**
    Reference definition of the winner: a present copy that no present copy is strictly
    later than, and that is strictly later than every present copy before it.
  */
  ghost predicate IsWinner(c: seq<Option<Stamp>>, k: nat)
  {
    && k < |c| && c[k].Some?
    && (forall j :: 0 <= j < |c| && c[j].Some? ==> !After(c[j].value, c[k].value))
    && (forall j :: 0 <= j < k && c[j].Some? ==> After(c[k].value, c[j].value))
  }

  lemma {:induction false} PickIsWinner(c: seq<Option<Stamp>>)
    ensures Pick(c).None? <==> forall j :: 0 <= j < |c| ==> c[j].None?
    ensures Pick(c).Some? ==> IsWinner(c, Pick(c).value)
    decreases |c|
  {
    if |c| > 0 {
      var i := |c| - 1;
      var pre := c[..i];
      PickIsWinner(pre);
      assert forall j :: 0 <= j < i ==> c[j] == pre[j];
    }
  }

  lemma WinnerIsUnique(c: seq<Option<Stamp>>, k1: nat, k2: nat)
    requires IsWinner(c, k1) && IsWinner(c, k2)
    ensures k1 == k2
  {
  }

  /** Pick meets the reference definition, and only it does. */
  lemma PickCharacterized(c: seq<Option<Stamp>>, k: nat)
    ensures Pick(c) == Some(k) <==> IsWinner(c, k)
  {
    PickIsWinner(c);
    if IsWinner(c, k) {
      assert !forall j :: 0 <= j < |c| ==> c[j].None? by { assert c[k].Some?; }
      WinnerIsUnique(c, k, Pick(c).value);
    }
  }

  function Index(r: Replica): nat
  {
    match r
    case MySql => 0
    case Oracle => 1
    case SqlServer => 2
  }

  function ReplicaAt(i: nat): Replica
    requires i < 3
  {
    if i == 0 then MySql else if i == 1 then Oracle else SqlServer
  }

  function StampOf<T>(x: Option<T>, time: T -> Stamp): Option<Stamp>
  {
    match x
    case None => None
    case Some(v) => Some(time(v))
  }

  /** The candidates' update times in priority order; a missing copy is None. */
  function Stamps<T>(m: Option<T>, o: Option<T>, s: Option<T>, time: T -> Stamp): seq<Option<Stamp>>
  {
    [StampOf(m, time), StampOf(o, time), StampOf(s, time)]
  }

  function Candidate<T>(m: Option<T>, o: Option<T>, s: Option<T>, r: Replica): Option<T>
  {
    match r
    case MySql => m
    case Oracle => o
    case SqlServer => s
  }

  /** determineWinner(m, o, s, timeExtractor), reporting which replica's copy won. */
  function DetermineWinner<T>(m: Option<T>, o: Option<T>, s: Option<T>, time: T -> Stamp): (w: Option<Replica>)
    ensures w.None? <==> m.None? && o.None? && s.None?
    ensures w.Some? ==> Candidate(m, o, s, w.value).Some?
    ensures w.Some? ==> IsWinner(Stamps(m, o, s, time), Index(w.value))
  {
    var c := Stamps(m, o, s, time);
    PickIsWinner(c);
    assert c[0].None? <==> m.None?;
    assert c[1].None? <==> o.None?;
    assert c[2].None? <==> s.None?;
    match Pick(c)
    case None => None
    case Some(k) => Some(ReplicaAt(k))
  }

  // ---------------------------------------------------------------
  // Consequences stated on the three candidates directly
  // ---------------------------------------------------------------

  /** The winner's time is not beaten by any candidate present. */
  lemma WinnerIsLatest<T>(m: Option<T>, o: Option<T>, s: Option<T>, time: T -> Stamp, r: Replica)
    requires DetermineWinner(m, o, s, time).Some?
    requires Candidate(m, o, s, r).Some?
    ensures var w := DetermineWinner(m, o, s, time).value;
      !After(time(Candidate(m, o, s, r).value), time(Candidate(m, o, s, w).value))
  {
    var w := DetermineWinner(m, o, s, time).value;
    var c := Stamps(m, o, s, time);
    assert c[Index(r)] == Some(time(Candidate(m, o, s, r).value));
    assert c[Index(w)] == Some(time(Candidate(m, o, s, w).value));
  }

  /** Equal latest times go to the replica earlier in priority order. */
  lemma TieGoesToEarlierReplica<T>(m: Option<T>, o: Option<T>, s: Option<T>, time: T -> Stamp, r: Replica)
    requires DetermineWinner(m, o, s, time).Some?
    requires Candidate(m, o, s, r).Some?
    requires Index(r) < Index(DetermineWinner(m, o, s, time).value)
    ensures var w := DetermineWinner(m, o, s, time).value;
      After(time(Candidate(m, o, s, w).value), time(Candidate(m, o, s, r).value))
  {
    var w := DetermineWinner(m, o, s, time).value;
    var c := Stamps(m, o, s, time);
    assert c[Index(r)] == Some(time(Candidate(m, o, s, r).value));
    assert c[Index(w)] == Some(time(Candidate(m, o, s, w).value));
  }

  /** With three distinct non-null times, the latest copy wins wherever it sits. */
  lemma LatestOfThreeWins<T>(m: T, o: T, s: T, time: T -> Stamp, r: Replica)
    requires time(m).Some? && time(o).Some? && time(s).Some?
    requires var t := time(Candidate(Some(m), Some(o), Some(s), r).value).value;
      forall r' :: r' != r ==> time(Candidate(Some(m), Some(o), Some(s), r').value).value < t
    ensures DetermineWinner(Some(m), Some(o), Some(s), time) == Some(r)
  {
    var w := DetermineWinner(Some(m), Some(o), Some(s), time).value;
    if w != r {
      WinnerIsLatest(Some(m), Some(o), Some(s), time, r);
    }
  }

  /** A single copy always wins; no copy at all yields null. */
  lemma LoneCopyWins<T>(x: T, time: T -> Stamp)
    ensures DetermineWinner(Some(x), None, None, time) == Some(MySql)
    ensures DetermineWinner(None, Some(x), None, time) == Some(Oracle)
    ensures DetermineWinner(None, None, Some(x), time) == Some(SqlServer)
    ensures DetermineWinner(None, None, None, time) == None
  {
  }

  /** Three equal copies: the MySQL copy wins. */
  lemma EqualCopiesGoToMySql<T>(x: T, time: T -> Stamp)
    ensures DetermineWinner(Some(x), Some(x), Some(x), time) == Some(MySql)
  {
    var w := DetermineWinner(Some(x), Some(x), Some(x), time).value;
    if w != MySql {
      TieGoesToEarlierReplica(Some(x), Some(x), Some(x), time, MySql);
    }
  }
}
