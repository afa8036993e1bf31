/** Walks along a partial successor function. */
module Walk {

  datatype Option<T> = None | Some(value: T)

  /** Where a walk is after `n` hops, if it makes that many. */
  function After(next: map<nat, nat>, start: nat, n: nat): Option<nat> {
    if n == 0 then Some(start)
    else match After(next, start, n - 1)
      case None => None
      case Some(k) => if k in next then Some(next[k]) else None
  }

  /** The walk ends after exactly `n` hops. */
  predicate EndsAfter(next: map<nat, nat>, start: nat, n: nat) {
    After(next, start, n).Some? && After(next, start, n).value !in next
  }

  ghost predicate Ends(next: map<nat, nat>, start: nat) {
    exists n :: EndsAfter(next, start, n)
  }

  /** The walk comes to some place twice. */
  ghost predicate Revisits(next: map<nat, nat>, start: nat) {
    exists i, j :: i < j && After(next, start, i).Some? && After(next, start, i) == After(next, start, j)
  }

  lemma {:induction false} NoEndBefore(next: map<nat, nat>, start: nat, later: nat, n: nat)
    requires n < later && After(next, start, later).Some?
    ensures After(next, start, n).Some? && !EndsAfter(next, start, n)
    decreases later - n
  {
    if n + 1 < later {
      NoEndBefore(next, start, later, n + 1);
    }
  }

  /** Hops are determined, so a walk has at most one end. */
  lemma EndIsUnique(next: map<nat, nat>, start: nat, i: nat, j: nat)
    requires EndsAfter(next, start, i) && EndsAfter(next, start, j)
    ensures i == j
  {
    if i < j {
      NoEndBefore(next, start, j, i);
    } else if j < i {
      NoEndBefore(next, start, i, j);
    }
  }

  lemma {:induction false} SameFromThere(next: map<nat, nat>, start: nat, i: nat, j: nat, n: nat)
    requires After(next, start, i) == After(next, start, j)
    ensures After(next, start, i + n) == After(next, start, j + n)
  {
    if n > 0 {
      SameFromThere(next, start, i, j, n - 1);
    }
  }

  lemma RevisitNeverEnds(next: map<nat, nat>, start: nat, i: nat, j: nat, end: nat)
    requires i < j && After(next, start, i).Some? && After(next, start, i) == After(next, start, j)
    ensures !EndsAfter(next, start, end)
  {
    if EndsAfter(next, start, end) {
      if end < j {
        NoEndBefore(next, start, j, end);
      } else {
        SameFromThere(next, start, i, j, end - j);
        EndIsUnique(next, start, end, i + (end - j));
      }
    }
  }

  ghost predicate VisitedBefore(next: map<nat, nat>, start: nat, n: nat, x: nat) {
    exists k :: 0 <= k < n && After(next, start, k) == Some(x)
  }

  /** A walk that has come to `n` different places goes on to its end, because
      there are only so many. */
  lemma {:induction false} FindEnd(next: map<nat, nat>, start: nat, n: nat, seen: set<nat>) returns (end: nat)
    requires !Revisits(next, start) && After(next, start, n).Some?
    requires seen <= next.Keys && |seen| == n
    requires forall x | x in seen :: VisitedBefore(next, start, n, x)
    ensures EndsAfter(next, start, end)
    decreases |next| - n
  {
    var at := After(next, start, n).value;
    end := n;
    if at in next {
      assert at !in seen;
      var now := seen + {at};
      Smaller(now, next.Keys);
      forall x | x in now
        ensures VisitedBefore(next, start, n + 1, x)
      {
        if x == at {
          assert After(next, start, n) == Some(x);
        } else {
          var k :| 0 <= k < n && After(next, start, k) == Some(x);
          assert 0 <= k < n + 1;
        }
      }
      end := FindEnd(next, start, n + 1, now);
    }
  }

  lemma {:induction false} Smaller(a: set<nat>, b: set<nat>)
    requires a <= b
    ensures |a| <= |b|
  {
    if a != {} {
      var x :| x in a;
      Smaller(a - {x}, b - {x});
    }
  }

  /** The places of a walk in order. */
  ghost predicate Path(next: map<nat, nat>, places: seq<nat>) {
    places != [] && forall n | 0 <= n < |places| - 1 :: places[n] in next && next[places[n]] == places[n + 1]
  }

  lemma {:induction false} PathWalks(next: map<nat, nat>, places: seq<nat>, n: nat)
    requires Path(next, places) && n < |places|
    ensures After(next, places[0], n) == Some(places[n])
  {
    if n > 0 {
      PathWalks(next, places, n - 1);
    }
  }

  lemma {:induction false} WalkPath(next: map<nat, nat>, start: nat, n: nat) returns (places: seq<nat>)
    requires After(next, start, n).Some?
    ensures Path(next, places) && |places| == n + 1 && places[0] == start && After(next, start, n) == Some(places[n])
  {
    places := [start];
    if n > 0 {
      places := WalkPath(next, start, n - 1);
      places := places + [next[places[n - 1]]];
    }
  }

  /** Two walks from the same place agree as long as both go on. */
  lemma {:induction false} SamePath(next: map<nat, nat>, a: seq<nat>, b: seq<nat>, n: nat)
    requires Path(next, a) && Path(next, b) && a[0] == b[0] && n < |a| && n < |b|
    ensures a[n] == b[n]
  {
    PathWalks(next, a, n);
    PathWalks(next, b, n);
  }

  /** A walk ends exactly if it comes to no place twice. */
  lemma EndsIffNeverRevisits(next: map<nat, nat>, start: nat)
    ensures Ends(next, start) <==> !Revisits(next, start)
  {
    if Revisits(next, start) {
      var i, j :| i < j && After(next, start, i).Some? && After(next, start, i) == After(next, start, j);
      forall end
        ensures !EndsAfter(next, start, end)
      {
        RevisitNeverEnds(next, start, i, j, end);
      }
    } else {
      var end := FindEnd(next, start, 0, {});
    }
  }
}
