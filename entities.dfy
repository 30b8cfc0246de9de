/**
 * The list of transient entities a mini-game keeps in React state: obstacles
 * in the obstacle game, targets in the tapping game. Each entity carries the
 * random id it was spawned with, a game-specific position and the one flag the
 * game sets on it (`hasHit` for an obstacle, `tapped` for a target).
 */
module Entities {

  datatype Entity<P> = Entity(id: int, pos: P, resolved: bool)

  /** No id occurs twice (the source draws ids from `Math.random()`). */
  ghost predicate DistinctIds<P>(s: seq<Entity<P>>) {
    forall i, j :: 0 <= i < j < |s| ==> s[i].id != s[j].id
  }

  /** No entity of `s` has id `id`. */
  predicate Fresh<P>(s: seq<Entity<P>>, id: int) {
    forall i :: 0 <= i < |s| ==> s[i].id != id
  }

  /** Some entity with id `id` is still present and not yet resolved. */
  predicate HasUnresolved<P>(s: seq<Entity<P>>, id: int) {
    exists i :: 0 <= i < |s| && s[i].id == id && !s[i].resolved
  }

  /** `s.filter(e => e.id !== id)`. */
  function Without<P(==)>(s: seq<Entity<P>>, id: int): (r: seq<Entity<P>>)
    ensures |r| <= |s|
    ensures forall i :: 0 <= i < |r| ==> r[i] in s && r[i].id != id
    ensures forall i :: 0 <= i < |s| && s[i].id != id ==> s[i] in r
  {
    if s == [] then []
    else if s[0].id == id then Without(s[1..], id)
    else [s[0]] + Without(s[1..], id)
  }

  /** `s.map(e => e.id === id ? {...e, resolved: true} : e)`. */
  function Resolve<P>(s: seq<Entity<P>>, id: int): (r: seq<Entity<P>>)
    ensures |r| == |s|
    ensures forall i :: 0 <= i < |s| ==> r[i].id == s[i].id && r[i].pos == s[i].pos
    ensures forall i :: 0 <= i < |s| ==> r[i].resolved == (s[i].resolved || s[i].id == id)
  {
    if s == [] then [] else [if s[0].id == id then s[0].(resolved := true) else s[0]] + Resolve(s[1..], id)
  }

  /** Filtering out an id no entity carries changes nothing. */
  lemma {:induction false} WithoutFresh<P>(s: seq<Entity<P>>, id: int)
    requires Fresh(s, id)
    ensures Without(s, id) == s
  {
    if s != [] {
      WithoutFresh(s[1..], id);
    }
  }

  /** With distinct ids, filtering removes exactly the one entity carrying the id and keeps the order of the rest. */
  lemma {:induction false} WithoutAt<P>(s: seq<Entity<P>>, k: int, id: int)
    requires DistinctIds(s) && 0 <= k < |s| && s[k].id == id
    ensures Without(s, id) == s[..k] + s[k + 1..]
    decreases k
  {
    TailDistinct(s);
    if k == 0 {
      WithoutFresh(s[1..], id);
    } else {
      assert s[0].id != s[k].id;
      assert s[1..][k - 1] == s[k];
      WithoutAt(s[1..], k - 1, id);
      calc {
        Without(s, id);
        [s[0]] + Without(s[1..], id);
        [s[0]] + (s[1..][..k - 1] + s[1..][k..]);
        { assert s[1..][..k - 1] == s[1..k]; assert s[1..][k..] == s[k + 1..]; }
        [s[0]] + (s[1..k] + s[k + 1..]);
        { assert [s[0]] + s[1..k] == s[..k]; }
        s[..k] + s[k + 1..];
      }
    }
  }

  /** The entities after the first keep distinct ids, none of them the first one's. */
  lemma TailDistinct<P>(s: seq<Entity<P>>)
    requires DistinctIds(s) && s != []
    ensures DistinctIds(s[1..]) && Fresh(s[1..], s[0].id)
  {
    forall i, j | 0 <= i < j < |s[1..]| ensures s[1..][i].id != s[1..][j].id {
      assert s[1..][i] == s[i + 1] && s[1..][j] == s[j + 1];
    }
    forall i | 0 <= i < |s[1..]| ensures s[1..][i].id != s[0].id {
      assert s[1..][i] == s[i + 1];
    }
  }

  /** Filtering keeps ids distinct. */
  lemma WithoutKeepsDistinct<P>(s: seq<Entity<P>>, id: int)
    requires DistinctIds(s)
    ensures DistinctIds(Without(s, id))
  {
    if !Fresh(s, id) {
      var k :| 0 <= k < |s| && s[k].id == id;
      WithoutAt(s, k, id);
    } else {
      WithoutFresh(s, id);
    }
  }

  /** Appending an entity with a fresh id keeps ids distinct. */
  lemma AppendFreshKeepsDistinct<P>(s: seq<Entity<P>>, e: Entity<P>)
    requires DistinctIds(s) && Fresh(s, e.id)
    ensures DistinctIds(s + [e])
  {
  }

  /** Resolving keeps ids distinct (ids are untouched). */
  lemma ResolveKeepsDistinct<P>(s: seq<Entity<P>>, id: int)
    requires DistinctIds(s)
    ensures DistinctIds(Resolve(s, id))
  {
  }

  /**
   * Removing an entity after it was resolved leaves the same list as removing
   * it straight away: the flag set on it is never observed by the others.
   */
  lemma {:induction false} WithoutAfterResolve<P>(s: seq<Entity<P>>, id: int)
    ensures Without(Resolve(s, id), id) == Without(s, id)
  {
    if s != [] {
      WithoutAfterResolve(s[1..], id);
      assert Resolve(s, id)[1..] == Resolve(s[1..], id);
    }
  }
}
