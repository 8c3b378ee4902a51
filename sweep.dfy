/** One pass of the pipe loop of updatePipes: every pipe the loop reaches is
    moved left by the scroll speed; a pipe that has moved past the left edge
    makes the loop drop the HEAD of the queue and score a point; a pipe that
    overlaps the bird ends the game.

    The loop removes elements from the queue it walks (shift inside forEach).
    forEach fixes the length at the start and then visits index k only while
    k is still below the current length, so after each removal the remaining
    pipes slide one place towards the front and the loop steps over the pipe
    that slid into the slot it just left. Here this is described on the
    ORIGINAL positions of the pipes: after visiting a pipe that retires, the
    walk continues two positions further on. FlappyBird.Game.MovePipes is
    the loop itself, proved equal to Pass below. */
module Sweep {
  import opened Rules

  /** A pipe after one step of scrolling. */
  function Moved(p: Pipe, speed: int): (q: Pipe)
  {
    p.(x := p.x - speed)
  }

  /** Once moved, the pipe's right edge is past the left edge of the playfield. */
  predicate Retires(p: Pipe, speed: int)
  {
    Moved(p, speed).x + PIPE_WIDTH < 0
  }

  /** The original positions, in order, that the loop hands to its callback
      when it reaches original position j with the queue still intact from j
      onwards. */
  function Visits(orig: seq<Pipe>, speed: int, j: nat): (v: seq<nat>)
    ensures forall a :: 0 <= a < |v| ==> j <= v[a] < |orig|
    ensures v != [] ==> j + |v| <= |orig|
    ensures j < |orig| ==> v != [] && v[0] == j
    decreases |orig| - j
  {
    if j >= |orig| then []
    else [j] + Visits(orig, speed, if Retires(orig[j], speed) then j + 2 else j + 1)
  }

  /** The loop visits positions in increasing order, so none twice. */
  lemma {:induction false} VisitsAscending(orig: seq<Pipe>, speed: int, j: nat)
    ensures var v := Visits(orig, speed, j);
      forall a, b :: 0 <= a < b < |v| ==> v[a] < v[b]
    decreases |orig| - j
  {
    if j < |orig| {
      var next := if Retires(orig[j], speed) then j + 2 else j + 1;
      VisitsAscending(orig, speed, next);
      var v := Visits(orig, speed, j);
      assert v == [j] + Visits(orig, speed, next);
      forall a, b | 0 <= a < b < |v| ensures v[a] < v[b] {
        if a == 0 {
          assert v[b] == Visits(orig, speed, next)[b - 1];
        } else {
          assert v[a] == Visits(orig, speed, next)[a - 1];
          assert v[b] == Visits(orig, speed, next)[b - 1];
        }
      }
    }
  }

  /** The number of pipes among the visited positions v that retire. */
  function RetiredAmong(orig: seq<Pipe>, speed: int, v: seq<nat>): (n: nat)
    requires forall a :: 0 <= a < |v| ==> v[a] < |orig|
    ensures n <= |v|
  {
    if v == [] then 0
    else RetiredAmong(orig, speed, v[..|v| - 1]) + (if Retires(orig[v[|v| - 1]], speed) then 1 else 0)
  }

  /** The queue with the pipes at the visited positions v moved. */
  function Advanced(orig: seq<Pipe>, speed: int, v: seq<nat>): (a: seq<Pipe>)
    ensures |a| == |orig|
    ensures forall i :: 0 <= i < |orig| ==> a[i] == if i in v then Moved(orig[i], speed) else orig[i]
  {
    seq(|orig|, i requires 0 <= i < |orig| => if i in v then Moved(orig[i], speed) else orig[i])
  }

  /** Some visited pipe, once moved, collides with the bird. */
  predicate HitAmong(orig: seq<Pipe>, speed: int, gap: int, birdY: real, v: seq<nat>)
    requires forall a :: 0 <= a < |v| ==> v[a] < |orig|
  {
    exists a :: 0 <= a < |v| && Collides(birdY, Moved(orig[v[a]], speed), gap)
  }

  /** What one pass leaves behind: the queue, the number of shifts (each one
      scored) and whether some test hit the bird. */
  datatype Outcome = Outcome(pipes: seq<Pipe>, retired: nat, hit: bool)

  /** One pass of the loop over the queue orig. */
  function Pass(orig: seq<Pipe>, speed: int, gap: int, birdY: real): (out: Outcome)
    // each shift removed the head: what is left is the tail of the queue
    ensures out.retired <= |orig| && |out.pipes| == |orig| - out.retired
    // one point per shift, and only visited pipes that moved off screen shift
    ensures out.retired == RetiredAmong(orig, speed, Visits(orig, speed, 0))
  {
    var v := Visits(orig, speed, 0);
    var m := RetiredAmong(orig, speed, v);
    Outcome(Advanced(orig, speed, v)[m..], m, HitAmong(orig, speed, gap, birdY, v))
  }

  /** What a pass leaves of each pipe: the pipes keep their order, no gap
      moves, a visited pipe moved by exactly speed and a skipped one not at
      all. */
  lemma PassEffect(orig: seq<Pipe>, speed: int, gap: int, birdY: real)
    ensures var out := Pass(orig, speed, gap, birdY);
      forall i :: 0 <= i < |out.pipes| ==>
        out.pipes[i].y == orig[out.retired + i].y &&
        out.pipes[i].x == orig[out.retired + i].x - (if out.retired + i in Visits(orig, speed, 0) then speed else 0)
  {
    var v := Visits(orig, speed, 0);
    var out := Pass(orig, speed, gap, birdY);
    var adv := Advanced(orig, speed, v);
    assert out.pipes == adv[out.retired..];
    forall i | 0 <= i < |out.pipes|
      ensures out.pipes[i] == if out.retired + i in v then Moved(orig[out.retired + i], speed) else orig[out.retired + i]
    {
      assert out.pipes[i] == adv[out.retired + i];
    }
  }

  /** A pass ends the game exactly when a visited pipe, once moved, collides
      with the bird. */
  lemma PassHit(orig: seq<Pipe>, speed: int, gap: int, birdY: real)
    ensures Pass(orig, speed, gap, birdY).hit <==>
      exists i :: i in Visits(orig, speed, 0) && Collides(birdY, Moved(orig[i], speed), gap)
  {
    var v := Visits(orig, speed, 0);
    assert Pass(orig, speed, gap, birdY).hit == HitAmong(orig, speed, gap, birdY, v);
    if HitAmong(orig, speed, gap, birdY, v) {
      var a :| 0 <= a < |v| && Collides(birdY, Moved(orig[v[a]], speed), gap);
      assert v[a] in v;
    }
    if exists i :: i in v && Collides(birdY, Moved(orig[i], speed), gap) {
      var i :| i in v && Collides(birdY, Moved(orig[i], speed), gap);
      var a :| 0 <= a < |v| && v[a] == i;
    }
  }

  /** The loop reaches the first pipe; after that it reaches a pipe exactly
      when it did not reach-and-retire the pipe just before it. So a retired
      pipe's successor is neither moved nor tested on that pass. */
  lemma {:induction false} SkipRule(orig: seq<Pipe>, speed: int, j: nat, i: nat)
    requires j <= i < |orig|
    ensures i in Visits(orig, speed, j) <==>
      i == j || !(i - 1 in Visits(orig, speed, j) && Retires(orig[i - 1], speed))
    decreases |orig| - j
  {
    var next := if Retires(orig[j], speed) then j + 2 else j + 1;
    var rest := Visits(orig, speed, next);
    assert Visits(orig, speed, j) == [j] + rest;
    if i == j {
    } else if i == j + 1 {
      if next == j + 1 {
        assert rest[0] == i;
      } else {
        assert i !in rest;
      }
    } else if i == next {
      assert rest[0] == i;
      assert i - 1 !in rest;
    } else {
      SkipRule(orig, speed, next, i);
    }
  }

  /** Without a retirement the loop reaches every pipe, from j on. */
  lemma {:induction false} AllVisitedWithoutRetirement(orig: seq<Pipe>, speed: int, j: nat)
    requires j <= |orig|
    requires forall i :: j <= i < |orig| ==> !Retires(orig[i], speed)
    ensures |Visits(orig, speed, j)| == |orig| - j
    ensures forall i :: j <= i < |orig| ==> i in Visits(orig, speed, j)
    decreases |orig| - j
  {
    if j < |orig| {
      AllVisitedWithoutRetirement(orig, speed, j + 1);
    }
  }

  /** Without a retirement a pass moves every pipe by exactly speed and keeps
      them all. */
  lemma PassWithoutRetirement(orig: seq<Pipe>, speed: int, gap: int, birdY: real)
    requires forall i :: 0 <= i < |orig| ==> !Retires(orig[i], speed)
    ensures Pass(orig, speed, gap, birdY).retired == 0
    ensures Pass(orig, speed, gap, birdY).pipes == seq(|orig|, i requires 0 <= i < |orig| => Moved(orig[i], speed))
  {
    AllVisitedWithoutRetirement(orig, speed, 0);
    NoneRetired(orig, speed, Visits(orig, speed, 0));
  }

  /** Positions none of whose pipes retire count no retirement. */
  lemma {:induction false} NoneRetired(orig: seq<Pipe>, speed: int, v: seq<nat>)
    requires forall a :: 0 <= a < |v| ==> v[a] < |orig| && !Retires(orig[v[a]], speed)
    ensures RetiredAmong(orig, speed, v) == 0
    decreases |v|
  {
    if v != [] {
      NoneRetired(orig, speed, v[..|v| - 1]);
    }
  }

  /** When the head retires and another pipe follows it, the follower is
      skipped: it stays in place and its collision test is not made. */
  lemma HeadRetirementSkipsFollower(orig: seq<Pipe>, speed: int, gap: int, birdY: real)
    requires |orig| >= 2 && Retires(orig[0], speed)
    ensures 1 !in Visits(orig, speed, 0)
    ensures Pass(orig, speed, gap, birdY).retired >= 1
    ensures Pass(orig, speed, gap, birdY).retired == 1 ==> Pass(orig, speed, gap, birdY).pipes[0] == orig[1]
  {
    var v := Visits(orig, speed, 0);
    SkipRule(orig, speed, 0, 1);
    assert v[0] == 0;
    RetiredAtLeastFirst(orig, speed, v);
  }

  /** A visited prefix whose first pipe retires counts at least one retirement. */
  lemma {:induction false} RetiredAtLeastFirst(orig: seq<Pipe>, speed: int, v: seq<nat>)
    requires forall a :: 0 <= a < |v| ==> v[a] < |orig|
    requires v != [] && Retires(orig[v[0]], speed)
    ensures RetiredAmong(orig, speed, v) >= 1
    decreases |v|
  {
    if |v| > 1 {
      RetiredAtLeastFirst(orig, speed, v[..|v| - 1]);
    }
  }

  /** Where the loop stands before index k: done are the original positions
      visited so far, next the original position of the pipe now at index k,
      and queue the array, with shifted pipes gone from its head. */
  ghost predicate Walking(orig: seq<Pipe>, speed: int, k: nat, done: seq<nat>, next: nat, shifted: nat, queue: seq<Pipe>)
  {
    k <= |orig| && next == k + shifted && |done| <= k &&
    (forall a :: 0 <= a < |done| ==> done[a] < next && done[a] < |orig|) &&
    Visits(orig, speed, 0) == done + Visits(orig, speed, next) &&
    shifted == RetiredAmong(orig, speed, done) &&
    queue == Advanced(orig, speed, done)[shifted..]
  }

  /** The loop starts on the whole queue. */
  lemma WalkStart(orig: seq<Pipe>, speed: int)
    ensures Walking(orig, speed, 0, [], 0, 0, orig)
  {
    assert Advanced(orig, speed, [])[0..] == orig;
  }

  /** Index k is still in the queue: its pipe is the one at original position
      next. Moving it, shifting the head if it retires, and going on to k + 1
      (queue' is the array afterwards) keeps the loop where Visits says. */
  lemma WalkVisit(orig: seq<Pipe>, speed: int, k: nat, done: seq<nat>, next: nat, shifted: nat, queue: seq<Pipe>, queue': seq<Pipe>)
    requires Walking(orig, speed, k, done, next, shifted, queue) && k < |queue|
    requires queue' == if Retires(queue[k], speed) then queue[k := Moved(queue[k], speed)][1..]
                       else queue[k := Moved(queue[k], speed)]
    ensures next < |orig| && queue[k] == orig[next]
    ensures Walking(orig, speed, k + 1, done + [next],
                    if Retires(queue[k], speed) then next + 2 else next + 1,
                    if Retires(queue[k], speed) then shifted + 1 else shifted, queue')
  {
    WalkVisitOrder(orig, speed, done, next);
    WalkVisitQueue(orig, speed, k, done, next, shifted, queue);
  }

  /** The Visits part of WalkVisit. */
  lemma WalkVisitOrder(orig: seq<Pipe>, speed: int, done: seq<nat>, next: nat)
    requires next < |orig|
    requires forall a :: 0 <= a < |done| ==> done[a] < next
    requires Visits(orig, speed, 0) == done + Visits(orig, speed, next)
    ensures var next' := if Retires(orig[next], speed) then next + 2 else next + 1;
      (forall a :: 0 <= a < |done + [next]| ==> (done + [next])[a] < next' && (done + [next])[a] < |orig|) &&
      Visits(orig, speed, 0) == (done + [next]) + Visits(orig, speed, next')
  {
    var next' := if Retires(orig[next], speed) then next + 2 else next + 1;
    assert Visits(orig, speed, next) == [next] + Visits(orig, speed, next');
    assert done + [next] + Visits(orig, speed, next') == done + ([next] + Visits(orig, speed, next'));
  }

  /** The queue part of WalkVisit. */
  lemma WalkVisitQueue(orig: seq<Pipe>, speed: int, k: nat, done: seq<nat>, next: nat, shifted: nat, queue: seq<Pipe>)
    requires Walking(orig, speed, k, done, next, shifted, queue) && k < |queue|
    ensures next < |orig| && queue[k] == orig[next]
    ensures var retires := Retires(orig[next], speed);
      var shifted' := if retires then shifted + 1 else shifted;
      var q := queue[k := Moved(orig[next], speed)];
      shifted' == RetiredAmong(orig, speed, done + [next]) &&
      (if retires then q[1..] else q) == Advanced(orig, speed, done + [next])[shifted'..]
  {
    assert next !in done;
    RetiredAmongAppend(orig, speed, done, next);
    AdvancedAppend(orig, speed, done, next);
    var adv := Advanced(orig, speed, done + [next]);
    var q := queue[k := Moved(orig[next], speed)];
    assert q == adv[shifted..];
    if Retires(orig[next], speed) {
      assert q[1..] == adv[shifted + 1..];
    }
  }

  lemma RetiredAmongAppend(orig: seq<Pipe>, speed: int, done: seq<nat>, i: nat)
    requires forall a :: 0 <= a < |done| ==> done[a] < |orig|
    requires i < |orig|
    ensures RetiredAmong(orig, speed, done + [i]) ==
      RetiredAmong(orig, speed, done) + if Retires(orig[i], speed) then 1 else 0
  {
    assert (done + [i])[..|done|] == done;
  }

  lemma AdvancedAppend(orig: seq<Pipe>, speed: int, done: seq<nat>, i: nat)
    requires i < |orig| && i !in done
    ensures Advanced(orig, speed, done + [i]) == Advanced(orig, speed, done)[i := Moved(orig[i], speed)]
  {
  }

  /** Index k is past the end of the queue: the loop only counts on. */
  lemma WalkSkip(orig: seq<Pipe>, speed: int, k: nat, done: seq<nat>, next: nat, shifted: nat, queue: seq<Pipe>)
    requires Walking(orig, speed, k, done, next, shifted, queue) && |queue| <= k < |orig|
    ensures Walking(orig, speed, k + 1, done, next + 1, shifted, queue)
  {
    assert Visits(orig, speed, next) == [] == Visits(orig, speed, next + 1);
  }

  /** After the last index the loop has done exactly what Pass says. */
  lemma WalkEnd(orig: seq<Pipe>, speed: int, gap: int, birdY: real, done: seq<nat>, next: nat, shifted: nat, queue: seq<Pipe>)
    requires Walking(orig, speed, |orig|, done, next, shifted, queue)
    ensures done == Visits(orig, speed, 0)
    ensures Pass(orig, speed, gap, birdY) == Outcome(queue, shifted, HitAmong(orig, speed, gap, birdY, done))
  {
    assert Visits(orig, speed, next) == [];
  }

  /** Visiting one more position adds its own collision test. */
  lemma HitAmongAppend(orig: seq<Pipe>, speed: int, gap: int, birdY: real, done: seq<nat>, i: nat)
    requires forall a :: 0 <= a < |done| ==> done[a] < |orig|
    requires i < |orig|
    ensures HitAmong(orig, speed, gap, birdY, done + [i]) <==>
      HitAmong(orig, speed, gap, birdY, done) || Collides(birdY, Moved(orig[i], speed), gap)
  {
    var done' := done + [i];
    if HitAmong(orig, speed, gap, birdY, done) {
      var a :| 0 <= a < |done| && Collides(birdY, Moved(orig[done[a]], speed), gap);
      assert done'[a] == done[a];
    }
    assert done'[|done|] == i;
  }
}
