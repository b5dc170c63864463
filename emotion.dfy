/** One reaction aggregate of a message: an emoji and the users who chose it (Emotion.ts). */
module Emotions {

  /** The plain shape `IEmotion` that the server sends and `toJSON` returns. */
  datatype EmotionData = EmotionData(emotion: string, users: seq<string>)

  predicate Distinct(xs: seq<string>) {
    forall i, j :: 0 <= i < j < |xs| ==> xs[i] != xs[j]
  }

  /** The contents of `new Set(xs)` in insertion order: later duplicates are dropped. */
  function Dedup(xs: seq<string>): (r: seq<string>)
    ensures Distinct(r)
    ensures forall x :: x in r <==> x in xs
    ensures |r| <= |xs|
  {
    if xs == [] then []
    else
      var r := Dedup(xs[..|xs| - 1]);
      if xs[|xs| - 1] in r then r else r + [xs[|xs| - 1]]
  }

  /** A list without duplicates is its own `Set`. */
  lemma {:induction false} DedupDistinct(xs: seq<string>)
    requires Distinct(xs)
    ensures Dedup(xs) == xs
    decreases |xs|
  {
    if xs != [] {
      var init := xs[..|xs| - 1];
      DedupDistinct(init);
      assert xs[|xs| - 1] !in init;
      assert init + [xs[|xs| - 1]] == xs;
    }
  }

  /** `set.delete(u)` on the insertion-ordered contents. */
  function Without(xs: seq<string>, u: string): (r: seq<string>)
    ensures u !in r
    ensures forall v :: v != u ==> (v in r <==> v in xs)
    ensures Distinct(xs) ==> Distinct(r)
    ensures u !in xs ==> r == xs
    ensures |r| <= |xs|
  {
    if xs == [] then []
    else if xs[0] == u then Without(xs[1..], u)
    else
      var r := Without(xs[1..], u);
      if Distinct(xs) then
        assert forall k :: 0 <= k < |xs[1..]| ==> xs[1..][k] == xs[k + 1] != xs[0];
        assert xs[0] !in xs[1..];
        ConsDistinct(xs[0], r);
        [xs[0]] + r
      else [xs[0]] + r
  }

  lemma ConsDistinct(a: string, ys: seq<string>)
    requires Distinct(ys) && a !in ys
    ensures Distinct([a] + ys)
  {
    var zs := [a] + ys;
    forall i, j | 0 <= i < j < |zs|
      ensures zs[i] != zs[j]
    {
      assert zs[j] == ys[j - 1];
      if i > 0 {
        assert zs[i] == ys[i - 1];
      }
    }
  }

  /** `set.add(u)` on the insertion-ordered contents: a new member goes last. */
  function Added(xs: seq<string>, u: string): (r: seq<string>)
    ensures u in r
    ensures forall v :: v != u ==> (v in r <==> v in xs)
    ensures Distinct(xs) ==> Distinct(r)
  {
    if u in xs then xs else xs + [u]
  }

  /** Removing the member that was just added gives back the original list. */
  lemma {:induction false} WithoutAdded(xs: seq<string>, u: string)
    requires u !in xs
    ensures Without(xs + [u], u) == xs
    decreases |xs|
  {
    if xs == [] {
      assert [u][1..] == [];
    } else {
      assert (xs + [u])[1..] == xs[1..] + [u];
      WithoutAdded(xs[1..], u);
      assert [xs[0]] + xs[1..] == xs;
    }
  }

  /** `toggle` on the contents. */
  function Toggled(xs: seq<string>, u: string): seq<string> {
    if u in xs then Without(xs, u) else Added(xs, u)
  }

  /**
   * Toggling twice restores the set of users, and the exact list when `u` was absent; a present
   * user comes back at the end.
   */
  lemma ToggledTwice(xs: seq<string>, u: string)
    requires Distinct(xs)
    ensures forall v :: v in Toggled(Toggled(xs, u), u) <==> v in xs
    ensures u !in xs ==> Toggled(Toggled(xs, u), u) == xs
  {
    if u !in xs {
      WithoutAdded(xs, u);
    }
  }

  class Emotion {
    /** The private `Set` of user ids, in insertion order; the `users` getter returns a copy. */
    var users: seq<string>
    const emotion: string

    predicate Valid()
      reads this
    {
      Distinct(users)
    }

    /** `new Emotion(data)`: the user list is deduplicated. */
    constructor (data: EmotionData)
      ensures Valid()
      ensures emotion == data.emotion && users == Dedup(data.users)
    {
      emotion := data.emotion;
      users := Dedup(data.users);
    }

    /** `has(u)`: `u` is one of the users. */
    function Has(u: string): (r: bool)
      reads this
      ensures r <==> exists k :: 0 <= k < |users| && users[k] == u
    {
      u in users
    }

    /** `delete(u)`: afterwards `u` is absent and every other user keeps their membership. */
    method Delete(u: string)
      requires Valid()
      modifies this
      ensures Valid()
      ensures users == Without(old(users), u)
      ensures !Has(u) && forall v :: v != u ==> (Has(v) <==> old(Has(v)))
    {
      users := Without(users, u);
    }

    /** `add(u)`: afterwards `u` is present and every other user keeps their membership. */
    method Add(u: string)
      requires Valid()
      modifies this
      ensures Valid()
      ensures users == Added(old(users), u)
      ensures Has(u) && forall v :: v != u ==> (Has(v) <==> old(Has(v)))
    {
      users := Added(users, u);
    }

    /** `toggle(u)` flips the membership of `u` and of nobody else. */
    method Toggle(u: string)
      requires Valid()
      modifies this
      ensures Valid()
      ensures users == Toggled(old(users), u)
      ensures Has(u) == !old(Has(u)) && forall v :: v != u ==> (Has(v) <==> old(Has(v)))
    {
      if Has(u) {
        Delete(u);
      } else {
        Add(u);
      }
    }

    /** `isEmpty`: no user has the reaction. */
    function IsEmpty(): (r: bool)
      reads this
      ensures r <==> forall u :: !Has(u)
    {
      assert users != [] ==> Has(users[0]);
      |users| == 0
    }

    function ToJson(): (d: EmotionData)
      reads this
      ensures d.emotion == emotion && d.users == users
    {
      EmotionData(emotion, users)
    }
  }

  /** `Emotion.hasID(u)`. */
  function HasId(u: string, e: Emotion): (r: bool)
    reads e
    ensures r <==> u in e.users
  {
    e.Has(u)
  }

  /** `Emotion.byEmoji(emoji)`. */
  function ByEmoji(emoji: string, e: Emotion): (r: bool)
    reads e
    ensures r <==> e.emotion == emoji
  {
    e.emotion == emoji
  }
}
