/**
 * The reaction toggle of a message (Message.ts, `toggleReactions`), stated on the plain values of
 * the message's aggregates, and the invariants it keeps.
 */
module Reactions {
  import opened Emotions

  type Aggregates = seq<EmotionData>

  /** `findIndex(Emotion.hasID(u))`: the first aggregate holding `u`, or -1. */
  function IndexOfUser(rs: Aggregates, u: string): (k: int)
    ensures -1 <= k < |rs|
    ensures k >= 0 ==> u in rs[k].users && forall j :: 0 <= j < k ==> u !in rs[j].users
    ensures k == -1 ==> forall j :: 0 <= j < |rs| ==> u !in rs[j].users
  {
    if rs == [] then -1
    else if u in rs[0].users then 0
    else var k := IndexOfUser(rs[1..], u); if k == -1 then -1 else k + 1
  }

  /** `findIndex(Emotion.byEmoji(e))`: the aggregate of emoji `e`, or -1. */
  function IndexOfEmoji(rs: Aggregates, e: string): (k: int)
    ensures -1 <= k < |rs|
    ensures k >= 0 ==> rs[k].emotion == e && forall j :: 0 <= j < k ==> rs[j].emotion != e
    ensures k == -1 ==> forall j :: 0 <= j < |rs| ==> rs[j].emotion != e
  {
    if rs == [] then -1
    else if rs[0].emotion == e then 0
    else var k := IndexOfEmoji(rs[1..], e); if k == -1 then -1 else k + 1
  }

  /** `emotions.splice(i, 1)`. */
  function RemoveAt(rs: Aggregates, i: nat): (r: Aggregates)
    requires i < |rs|
    ensures |r| == |rs| - 1
    ensures forall j :: 0 <= j < i ==> r[j] == rs[j]
    ensures forall j :: i <= j < |r| ==> r[j] == rs[j + 1]
  {
    rs[..i] + rs[i + 1..]
  }

  function WithoutAt(rs: Aggregates, i: nat, u: string): (r: Aggregates)
    requires i < |rs|
    ensures |r| == |rs|
  {
    rs[i := rs[i].(users := Without(rs[i].users, u))]
  }

  function ToggleAt(rs: Aggregates, i: nat, u: string): (r: Aggregates)
    requires i < |rs|
    ensures |r| == |rs|
  {
    rs[i := rs[i].(users := Toggled(rs[i].users, u))]
  }

  /** Step 1: `u` leaves the aggregate at `ci`, if any. */
  function Leave(rs: Aggregates, ci: int, u: string): (r: Aggregates)
    requires -1 <= ci < |rs|
    ensures |r| == |rs|
  {
    if ci == -1 then rs else WithoutAt(rs, ci, u)
  }

  /** Step 2: `u` is toggled in the aggregate at `ti`, or a new aggregate `[u]` for `e` is pushed. */
  function Join(rs: Aggregates, ti: int, u: string, e: string): (r: Aggregates)
    requires -1 <= ti < |rs|
    ensures |r| == if ti == -1 then |rs| + 1 else |rs|
  {
    if ti == -1 then rs + [EmotionData(e, [u])] else ToggleAt(rs, ti, u)
  }

  /** Step 3: the left aggregate if it became empty, else the target if it became empty, is dropped. */
  function Prune(rs: Aggregates, ci: int, ti: int): Aggregates
    requires -1 <= ci < |rs| && -1 <= ti < |rs|
  {
    if ci != -1 && |rs[ci].users| == 0 then RemoveAt(rs, ci)
    else if ti != -1 && |rs[ti].users| == 0 then RemoveAt(rs, ti)
    else rs
  }

  /**
   * `toggleReactions(u, e)` on the aggregates. When `u` already reacted with `e`, `u` is removed
   * and an emptied aggregate dropped; otherwise `u` leaves the first aggregate holding them, is
   * toggled in the aggregate of `e` (created at the end when missing), and the first of those
   * two aggregates that became empty is dropped.
   */
  function Toggle(rs: Aggregates, u: string, e: string): Aggregates {
    var ci := IndexOfUser(rs, u);
    var ti := IndexOfEmoji(rs, e);
    if ti != -1 && ci != -1 && ti == ci then
      var r := WithoutAt(rs, ti, u);
      if |r[ti].users| == 0 then RemoveAt(r, ti) else r
    else
      Prune(Join(Leave(rs, ci, u), ti, u, e), ci, ti)
  }

  // ---------------------------------------------------------------------------
  // the invariant

  predicate UniqueEmojis(rs: Aggregates) {
    forall i, j :: 0 <= i < j < |rs| ==> rs[i].emotion != rs[j].emotion
  }

  predicate DistinctUsers(rs: Aggregates) {
    forall i :: 0 <= i < |rs| ==> Distinct(rs[i].users)
  }

  /** No user appears in two aggregates. */
  predicate SingleReaction(rs: Aggregates) {
    forall i, j, v :: 0 <= i < |rs| && 0 <= j < |rs| && i != j && v in rs[i].users ==> v !in rs[j].users
  }

  predicate NoneEmpty(rs: Aggregates) {
    forall i :: 0 <= i < |rs| ==> |rs[i].users| > 0
  }

  /** The invariant apart from non-emptiness. */
  predicate Sound(rs: Aggregates) {
    UniqueEmojis(rs) && DistinctUsers(rs) && SingleReaction(rs)
  }

  /** Each emoji once, no empty aggregate, each user in at most one aggregate and at most once. */
  predicate WellFormed(rs: Aggregates) {
    Sound(rs) && NoneEmpty(rs)
  }

  /** `v` has reacted with emoji `x`. */
  predicate Reacted(rs: Aggregates, v: string, x: string) {
    exists j :: 0 <= j < |rs| && rs[j].emotion == x && v in rs[j].users
  }

  lemma WithoutAtSound(rs: Aggregates, i: nat, u: string)
    requires i < |rs| && Sound(rs)
    ensures Sound(WithoutAt(rs, i, u))
  {
  }

  lemma ToggleAtSound(rs: Aggregates, i: nat, u: string)
    requires i < |rs| && Sound(rs)
    requires forall j :: 0 <= j < |rs| ==> u !in rs[j].users
    ensures Sound(ToggleAt(rs, i, u))
  {
  }

  lemma AppendSound(rs: Aggregates, u: string, e: string)
    requires Sound(rs)
    requires forall j :: 0 <= j < |rs| ==> u !in rs[j].users && rs[j].emotion != e
    ensures Sound(rs + [EmotionData(e, [u])])
  {
  }

  lemma RemoveAtSound(rs: Aggregates, i: nat)
    requires i < |rs| && Sound(rs)
    ensures Sound(RemoveAt(rs, i))
  {
    var r := RemoveAt(rs, i);
    assert forall j :: 0 <= j < |r| ==> r[j] == rs[if j < i then j else j + 1];
  }

  /** `u` appears in no aggregate except possibly the one at `i`. */
  predicate OnlyAt(rs: Aggregates, u: string, i: int) {
    forall j :: 0 <= j < |rs| && j != i ==> u !in rs[j].users
  }

  /** Under the invariant, the only aggregate holding `u` is the one found first. */
  lemma OnlyHolder(rs: Aggregates, u: string)
    requires SingleReaction(rs)
    ensures OnlyAt(rs, u, IndexOfUser(rs, u))
  {
  }

  /** Under the invariant, the only aggregate of emoji `e` is the one found first. */
  lemma OnlyEmoji(rs: Aggregates, e: string)
    requires UniqueEmojis(rs)
    ensures var ti := IndexOfEmoji(rs, e);
      ti == -1 || forall j :: 0 <= j < |rs| && j != ti ==> rs[j].emotion != e
  {
  }

  /** Removing an empty aggregate changes nobody's reactions and keeps the invariant. */
  lemma RemoveEmpty(rs: Aggregates, i: nat)
    requires i < |rs| && |rs[i].users| == 0
    ensures forall v, x :: Reacted(RemoveAt(rs, i), v, x) <==> Reacted(rs, v, x)
    ensures Sound(rs) ==> Sound(RemoveAt(rs, i))
    ensures (forall j :: 0 <= j < |rs| && j != i ==> |rs[j].users| > 0) ==> NoneEmpty(RemoveAt(rs, i))
  {
    forall v, x ensures Reacted(RemoveAt(rs, i), v, x) <==> Reacted(rs, v, x) {
      RemovePreserves(rs, i, v, x);
    }
    if Sound(rs) {
      RemoveAtSound(rs, i);
    }
  }

  lemma RemovePreserves(rs: Aggregates, i: nat, v: string, x: string)
    requires i < |rs| && |rs[i].users| == 0
    ensures Reacted(RemoveAt(rs, i), v, x) <==> Reacted(rs, v, x)
  {
    var r := RemoveAt(rs, i);
    if Reacted(rs, v, x) {
      var j :| 0 <= j < |rs| && rs[j].emotion == x && v in rs[j].users;
      var k := if j < i then j else j - 1;
      assert r[k] == rs[j];
    }
    if Reacted(r, v, x) {
      var k :| 0 <= k < |r| && r[k].emotion == x && v in r[k].users;
      assert r[k] == rs[if k < i then k else k + 1];
    }
  }

  /** Prune drops only empty aggregates. */
  lemma PruneEffect(rs: Aggregates, ci: int, ti: int)
    requires -1 <= ci < |rs| && -1 <= ti < |rs|
    ensures forall v, x :: Reacted(Prune(rs, ci, ti), v, x) <==> Reacted(rs, v, x)
    ensures Sound(rs) ==> Sound(Prune(rs, ci, ti))
  {
    if ci != -1 && |rs[ci].users| == 0 {
      RemoveEmpty(rs, ci);
    } else if ti != -1 && |rs[ti].users| == 0 {
      RemoveEmpty(rs, ti);
    }
  }

  /** Leaving only touches `u`'s membership of the aggregate at `ci`. */
  lemma LeaveEffect(rs: Aggregates, ci: int, u: string)
    requires -1 <= ci < |rs|
    requires OnlyAt(rs, u, ci)
    ensures var r := Leave(rs, ci, u);
      (forall j :: 0 <= j < |rs| ==> r[j].emotion == rs[j].emotion) &&
      (forall j :: 0 <= j < |rs| && j != ci ==> r[j] == rs[j]) &&
      (forall j :: 0 <= j < |rs| ==> u !in r[j].users) &&
      (forall v, x :: v != u ==> (Reacted(r, v, x) <==> Reacted(rs, v, x))) &&
      (Sound(rs) ==> Sound(r))
  {
    var r := Leave(rs, ci, u);
    if ci != -1 {
      if Sound(rs) {
        WithoutAtSound(rs, ci, u);
      }
      forall v, x | v != u ensures Reacted(r, v, x) <==> Reacted(rs, v, x) {
        if Reacted(rs, v, x) {
          var j :| 0 <= j < |rs| && rs[j].emotion == x && v in rs[j].users;
          assert v in r[j].users;
        }
        if Reacted(r, v, x) {
          var j :| 0 <= j < |r| && r[j].emotion == x && v in r[j].users;
          assert v in rs[j].users;
        }
      }
    }
  }

  /** Joining, for a user in no aggregate, puts them in exactly the aggregate of `e`. */
  lemma JoinEffect(rs: Aggregates, ti: int, u: string, e: string)
    requires -1 <= ti < |rs|
    requires ti != -1 ==> rs[ti].emotion == e
    requires ti == -1 ==> forall j :: 0 <= j < |rs| ==> rs[j].emotion != e
    requires forall j :: 0 <= j < |rs| ==> u !in rs[j].users
    ensures var r := Join(rs, ti, u, e); var at := if ti == -1 then |rs| else ti;
      at < |r| && r[at].emotion == e && u in r[at].users && OnlyAt(r, u, at) &&
      (forall j :: 0 <= j < |rs| ==> r[j].emotion == rs[j].emotion) &&
      (forall j :: 0 <= j < |rs| && j != at ==> r[j] == rs[j]) &&
      (forall v, x :: v != u ==> (Reacted(r, v, x) <==> Reacted(rs, v, x))) &&
      (Sound(rs) ==> Sound(r))
  {
    var r := Join(rs, ti, u, e);
    var at := if ti == -1 then |rs| else ti;
    if ti == -1 {
      if Sound(rs) {
        AppendSound(rs, u, e);
      }
    } else {
      if Sound(rs) {
        ToggleAtSound(rs, ti, u);
      }
    }
    forall v, x | v != u ensures Reacted(r, v, x) <==> Reacted(rs, v, x) {
      if Reacted(rs, v, x) {
        var j :| 0 <= j < |rs| && rs[j].emotion == x && v in rs[j].users;
        assert v in r[j].users;
      }
      if Reacted(r, v, x) {
        var j :| 0 <= j < |r| && r[j].emotion == x && v in r[j].users;
        assert j < |rs| && v in rs[j].users;
      }
    }
  }

  /** `WithoutAt` on the only holder of `u` leaves `u` nowhere and others untouched. */
  lemma WithoutAtEffect(rs: Aggregates, i: nat, u: string)
    requires i < |rs| && OnlyAt(rs, u, i)
    ensures var r := WithoutAt(rs, i, u);
      (forall j :: 0 <= j < |rs| ==> u !in r[j].users) &&
      (forall j :: 0 <= j < |rs| && j != i ==> r[j] == rs[j]) &&
      (forall v, x :: v != u ==> (Reacted(r, v, x) <==> Reacted(rs, v, x)))
  {
    LeaveEffect(rs, i, u);
  }

  /** `toggleReactions` keeps the invariant. */
  lemma ToggleWellFormed(rs: Aggregates, u: string, e: string)
    requires WellFormed(rs)
    ensures WellFormed(Toggle(rs, u, e))
  {
    var ci := IndexOfUser(rs, u);
    var ti := IndexOfEmoji(rs, e);
    if ti != -1 && ci != -1 && ti == ci {
      RetractWellFormed(rs, u, ti);
    } else {
      MoveWellFormed(rs, u, e, ci, ti);
    }
  }

  /** Taking back the user's own reaction keeps the invariant. */
  lemma RetractWellFormed(rs: Aggregates, u: string, ti: nat)
    requires WellFormed(rs) && ti < |rs| && ti == IndexOfUser(rs, u)
    ensures var r := WithoutAt(rs, ti, u);
      WellFormed(if |r[ti].users| == 0 then RemoveAt(r, ti) else r)
  {
    OnlyHolder(rs, u);
    var r := WithoutAt(rs, ti, u);
    WithoutAtSound(rs, ti, u);
    WithoutAtEffect(rs, ti, u);
    if |r[ti].users| == 0 {
      RemoveEmpty(r, ti);
    }
  }

  /** Leaving the old reaction, if any, and joining another keeps the invariant. */
  lemma MoveWellFormed(rs: Aggregates, u: string, e: string, ci: int, ti: int)
    requires WellFormed(rs) && ci == IndexOfUser(rs, u) && ti == IndexOfEmoji(rs, e)
    requires !(ti != -1 && ci != -1 && ti == ci)
    ensures WellFormed(Prune(Join(Leave(rs, ci, u), ti, u, e), ci, ti))
  {
    OnlyHolder(rs, u);
    var r1 := Leave(rs, ci, u);
    LeaveEffect(rs, ci, u);
    assert ti != -1 ==> ti != ci && r1[ti] == rs[ti];
    var r2 := Join(r1, ti, u, e);
    JoinEffect(r1, ti, u, e);
    var at := if ti == -1 then |r1| else ti;
    assert forall j :: 0 <= j < |r2| && j != ci ==> |r2[j].users| > 0 by {
      forall j | 0 <= j < |r2| && j != ci ensures |r2[j].users| > 0 {
        if j != at {
          assert r2[j] == r1[j] == rs[j];
        }
      }
    }
    PruneEffect(r2, ci, ti);
    if ci != -1 && |r2[ci].users| == 0 {
      RemoveEmpty(r2, ci);
    }
  }

  /**
   * Another user's reactions are never changed by `toggleReactions(u, e)` under the invariant.
   */
  lemma ToggleOthers(rs: Aggregates, u: string, e: string, v: string, x: string)
    requires WellFormed(rs) && v != u
    ensures Reacted(Toggle(rs, u, e), v, x) <==> Reacted(rs, v, x)
  {
    var ci := IndexOfUser(rs, u);
    var ti := IndexOfEmoji(rs, e);
    OnlyHolder(rs, u);
    if ti != -1 && ci != -1 && ti == ci {
      var r := WithoutAt(rs, ti, u);
      WithoutAtEffect(rs, ti, u);
      if |r[ti].users| == 0 {
        RemoveEmpty(r, ti);
      }
    } else {
      var r1 := Leave(rs, ci, u);
      LeaveEffect(rs, ci, u);
      var r2 := Join(r1, ti, u, e);
      JoinEffect(r1, ti, u, e);
      PruneEffect(r2, ci, ti);
    }
  }

  /**
   * Under the invariant, after `toggleReactions(u, e)` the user has reacted with `x` exactly when
   * `x` is `e` and they had not reacted with `e` before.
   */
  lemma ToggleSelf(rs: Aggregates, u: string, e: string, x: string)
    requires WellFormed(rs)
    ensures Reacted(Toggle(rs, u, e), u, x) <==> x == e && !Reacted(rs, u, e)
  {
    var ci := IndexOfUser(rs, u);
    var ti := IndexOfEmoji(rs, e);
    OnlyHolder(rs, u);
    OnlyEmoji(rs, e);
    if ti != -1 && ci != -1 && ti == ci {
      var r := WithoutAt(rs, ti, u);
      WithoutAtEffect(rs, ti, u);
      assert Reacted(rs, u, e);
      assert !Reacted(r, u, x);
      if |r[ti].users| == 0 {
        RemoveEmpty(r, ti);
      }
    } else {
      assert !Reacted(rs, u, e) by {
        forall j | 0 <= j < |rs| && rs[j].emotion == e ensures u !in rs[j].users {
          assert j == ti && j != ci;
        }
      }
      var r1 := Leave(rs, ci, u);
      LeaveEffect(rs, ci, u);
      var r2 := Join(r1, ti, u, e);
      JoinEffect(r1, ti, u, e);
      var at := if ti == -1 then |r1| else ti;
      assert Reacted(r2, u, x) <==> x == e by {
        if Reacted(r2, u, x) {
          var j :| 0 <= j < |r2| && r2[j].emotion == x && u in r2[j].users;
          assert j == at;
        }
      }
      PruneEffect(r2, ci, ti);
    }
  }

  /** Reacting with `e` and then with another emoji `f` leaves the user with `f` only. */
  lemma ToggleThenOther(rs: Aggregates, u: string, e: string, f: string, x: string)
    requires WellFormed(rs) && e != f
    ensures Reacted(Toggle(Toggle(rs, u, e), u, f), u, x) <==> x == f
  {
    var r1 := Toggle(rs, u, e);
    ToggleWellFormed(rs, u, e);
    ToggleSelf(rs, u, e, f);
    ToggleSelf(r1, u, f, x);
  }

  /** Toggling the same emoji twice, starting from no reaction of the user, restores the list. */
  lemma ToggleTwice(rs: Aggregates, u: string, e: string)
    requires WellFormed(rs)
    requires forall j :: 0 <= j < |rs| ==> u !in rs[j].users
    ensures Toggle(Toggle(rs, u, e), u, e) == rs
  {
    var ti := IndexOfEmoji(rs, e);
    OnlyEmoji(rs, e);
    assert IndexOfUser(rs, u) == -1;
    var r1 := Toggle(rs, u, e);
    JoinEffect(rs, ti, u, e);
    var at := if ti == -1 then |rs| else ti;
    assert r1 == Join(rs, ti, u, e);
    if ti != -1 {
      ToggleTwiceExisting(rs, r1, u, e, ti);
    } else {
      ToggleTwiceNew(rs, r1, u, e);
    }
  }

  lemma ToggleTwiceExisting(rs: Aggregates, r1: Aggregates, u: string, e: string, ti: nat)
    requires ti < |rs| && rs[ti].emotion == e && IndexOfEmoji(rs, e) == ti
    requires forall j :: 0 <= j < |rs| ==> u !in rs[j].users
    requires |rs[ti].users| > 0
    requires r1 == ToggleAt(rs, ti, u)
    ensures Toggle(r1, u, e) == rs
  {
    assert forall j :: 0 <= j < |rs| && j != ti ==> r1[j] == rs[j];
    assert r1[ti].users == rs[ti].users + [u];
    assert IndexOfUser(r1, u) == ti;
    assert IndexOfEmoji(r1, e) == ti by {
      assert forall j :: 0 <= j < ti ==> r1[j].emotion == rs[j].emotion != e;
    }
    WithoutAdded(rs[ti].users, u);
    assert WithoutAt(r1, ti, u) == rs;
  }

  lemma ToggleTwiceNew(rs: Aggregates, r1: Aggregates, u: string, e: string)
    requires forall j :: 0 <= j < |rs| ==> u !in rs[j].users && rs[j].emotion != e
    requires r1 == rs + [EmotionData(e, [u])]
    ensures Toggle(r1, u, e) == rs
  {
    var n := |rs|;
    assert forall j :: 0 <= j < n ==> r1[j] == rs[j];
    assert r1[n] == EmotionData(e, [u]) && u in r1[n].users;
    assert IndexOfUser(r1, u) == n;
    assert IndexOfEmoji(r1, e) == n;
    assert Without([u], u) == [];
    var w := WithoutAt(r1, n, u);
    assert |w[n].users| == 0;
    assert RemoveAt(w, n) == rs;
  }
}
