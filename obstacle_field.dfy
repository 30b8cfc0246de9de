/**
 * The obstacle list both obstacle drivers keep: obstacles enter at the right
 * edge, slide left over `speed` milliseconds, and a 100 ms scan marks each one
 * that reaches the player. `pos` is the obstacle's x position (`left`) and
 * `resolved` its `hasHit` flag.
 */
module ObstacleField {
  import opened Entities

  type Obstacle = Entity<real>

  const StartSpeed := 4000
  const MinSpeed := 1500
  const SpeedStep := 500
  /** An obstacle hits the player when their x positions are closer than this. */
  const HitRange: real := 20.0

  /** The difficulty ramp run every 30 s: `Math.max(speed - 500, 1500)`. */
  function NextSpeed(speed: int): (r: int)
    ensures MinSpeed <= r
    ensures speed >= MinSpeed ==> r <= speed
    ensures speed > MinSpeed ==> r < speed
    ensures r == MinSpeed || r == speed - SpeedStep
  {
    if speed - SpeedStep > MinSpeed then speed - SpeedStep else MinSpeed
  }

  /** The speed after `n` ramp steps from the start speed. */
  function SpeedAfter(n: nat): int {
    if n == 0 then StartSpeed else NextSpeed(SpeedAfter(n - 1))
  }

  /** The ramp loses 500 ms per step from 4000 ms until it settles at 1500 ms, after five steps. */
  lemma {:induction false} SpeedRamp(n: nat)
    ensures SpeedAfter(n) == if StartSpeed - SpeedStep * n > MinSpeed then StartSpeed - SpeedStep * n else MinSpeed
    ensures MinSpeed <= SpeedAfter(n) <= StartSpeed
  {
    if n > 0 {
      SpeedRamp(n - 1);
    }
  }

  function Abs(x: real): real {
    if x < 0.0 then -x else x
  }

  /** The test of the collision scan: close to the player, player not dodging, not hit before. */
  predicate Collides(playerX: real, isTouching: bool, o: Obstacle) {
    Abs(playerX - o.pos) < HitRange && !isTouching && !o.resolved
  }

  /** The list the collision scan leaves: every colliding obstacle gains `hasHit`. */
  function MarkHits(s: seq<Obstacle>, playerX: real, isTouching: bool): (r: seq<Obstacle>)
    ensures |r| == |s|
    decreases |s|
  {
    if s == [] then []
    else
      var last := s[|s| - 1];
      MarkHits(s[..|s| - 1], playerX, isTouching) + [if Collides(playerX, isTouching, last) then last.(resolved := true) else last]
  }

  /**
   * The scan keeps length, order, ids and positions, and sets `hasHit` on
   * exactly the colliding obstacles.
   */
  lemma {:induction false} MarkHitsPointwise(s: seq<Obstacle>, playerX: real, isTouching: bool)
    ensures var r := MarkHits(s, playerX, isTouching);
      forall i :: 0 <= i < |s| ==>
        r[i].id == s[i].id && r[i].pos == s[i].pos && r[i].resolved == (s[i].resolved || Collides(playerX, isTouching, s[i]))
    decreases |s|
  {
    if s != [] {
      MarkHitsPointwise(s[..|s| - 1], playerX, isTouching);
    }
  }

  /** How many obstacles the scan finds colliding, i.e. how many times it calls `loseLife`. */
  function CountHits(s: seq<Obstacle>, playerX: real, isTouching: bool): (r: nat)
    ensures r <= |s|
    decreases |s|
  {
    if s == [] then 0
    else CountHits(s[..|s| - 1], playerX, isTouching) + (if Collides(playerX, isTouching, s[|s| - 1]) then 1 else 0)
  }

  /** The scan calls `loseLife` at all exactly when some obstacle collides. */
  lemma {:induction false} NoHitsIff(s: seq<Obstacle>, playerX: real, isTouching: bool)
    ensures CountHits(s, playerX, isTouching) == 0 <==> forall i :: 0 <= i < |s| ==> !Collides(playerX, isTouching, s[i])
    decreases |s|
  {
    if s != [] {
      NoHitsIff(s[..|s| - 1], playerX, isTouching);
    }
  }

  /** One more step of the scan: the prefix grows by one obstacle, marked or not. */
  lemma ScanStep(s: seq<Obstacle>, i: int, playerX: real, isTouching: bool)
    requires 0 <= i < |s|
    ensures MarkHits(s[..i + 1], playerX, isTouching) ==
      MarkHits(s[..i], playerX, isTouching) + [if Collides(playerX, isTouching, s[i]) then s[i].(resolved := true) else s[i]]
    ensures CountHits(s[..i + 1], playerX, isTouching) ==
      CountHits(s[..i], playerX, isTouching) + (if Collides(playerX, isTouching, s[i]) then 1 else 0)
  {
    assert s[..i + 1][..i] == s[..i];
  }

  /**
   * The scan marks exactly the obstacles it charges a life for: the number of
   * `loseLife` calls equals the number of obstacles whose `hasHit` flips.
   */
  lemma {:induction false} HitsAreMarked(s: seq<Obstacle>, playerX: real, isTouching: bool)
    ensures CountHits(s, playerX, isTouching) == NewlyResolved(s, MarkHits(s, playerX, isTouching))
    decreases |s|
  {
    if s != [] {
      var init := s[..|s| - 1];
      var r := MarkHits(s, playerX, isTouching);
      HitsAreMarked(init, playerX, isTouching);
      assert r[..|s| - 1] == MarkHits(init, playerX, isTouching);
    }
  }

  /** The number of positions whose flag is unset in `before` and set in `after`. */
  function NewlyResolved(before: seq<Obstacle>, after: seq<Obstacle>): nat
    requires |before| == |after|
    decreases |before|
  {
    if before == [] then 0
    else
      var flipped := !before[|before| - 1].resolved && after[|after| - 1].resolved;
      NewlyResolved(before[..|before| - 1], after[..|after| - 1]) + (if flipped then 1 else 0)
  }

  /**
   * An obstacle that has been hit never costs another life: scanning again
   * with the same positions changes no obstacle and calls `loseLife` no more.
   */
  lemma ScanIsIdempotent(s: seq<Obstacle>, playerX: real, isTouching: bool)
    ensures var r := MarkHits(s, playerX, isTouching);
      MarkHits(r, playerX, isTouching) == r && CountHits(r, playerX, isTouching) == 0
  {
    var r := MarkHits(s, playerX, isTouching);
    var rr := MarkHits(r, playerX, isTouching);
    MarkHitsPointwise(s, playerX, isTouching);
    MarkHitsPointwise(r, playerX, isTouching);
    NoHitsIff(r, playerX, isTouching);
    forall i | 0 <= i < |r| ensures rr[i] == r[i] && !Collides(playerX, isTouching, r[i]) {
    }
  }

  /** Marking hits keeps ids, so distinct ids stay distinct. */
  lemma MarkHitsKeepsDistinct(s: seq<Obstacle>, playerX: real, isTouching: bool)
    requires DistinctIds(s)
    ensures DistinctIds(MarkHits(s, playerX, isTouching))
  {
    MarkHitsPointwise(s, playerX, isTouching);
  }

  /** The animation moving obstacle `id` to `x` (`Animated.timing` on its `left`). */
  function MoveTo(s: seq<Obstacle>, id: int, x: real): (r: seq<Obstacle>)
    ensures |r| == |s|
    ensures forall i :: 0 <= i < |s| ==> r[i].id == s[i].id && r[i].resolved == s[i].resolved
    ensures forall i :: 0 <= i < |s| ==> r[i].pos == (if s[i].id == id then x else s[i].pos)
    decreases |s|
  {
    if s == [] then [] else [if s[0].id == id then s[0].(pos := x) else s[0]] + MoveTo(s[1..], id, x)
  }
}
