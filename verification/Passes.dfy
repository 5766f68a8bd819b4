/**
 One pass over a queue of handles whose callbacks stop some of them: a handle that is stopped before its turn is
 not called.
 */
module Passes {
  import opened Basics

  /** The handles of `q` that are not stopped. */
  function Spared<T(==)>(q: seq<T>, stopped: seq<T>): (r: seq<T>)
    ensures |r| <= |q|
  {
    if q == [] then [] else (if q[0] in stopped then [] else [q[0]]) + Spared(q[1..], stopped)
  }

  /** The handles of the starting queue that are not stopped before their turn; `stops(k, h)` are those that the
      callback of `h` stops when it is the k-th to be called. */
  function Survivors<T(==)>(q: seq<T>, k: nat, stops: (nat, T) -> seq<T>): seq<T>
    decreases |q|
  {
    if q == [] then [] else [q[0]] + Survivors(Spared(q[1..], stops(k, q[0])), k + 1, stops)
  }

  lemma {:induction false} SparedOne<T>(q: seq<T>, h: T, more: seq<T>)
    ensures Spared(q, [h] + more) == Spared(Without(q, h), more)
  {
    if q != [] {
      SparedOne(q[1..], h, more);
      if q[0] != h {
        assert Without(q, h)[1..] == Without(q[1..], h);
      } else {
        assert Without(q, h) == Without(q[1..], h);
      }
    }
  }

  lemma {:induction false} SparedNone<T>(q: seq<T>)
    ensures Spared(q, []) == q
  {
    if q != [] { SparedNone(q[1..]); }
  }

  lemma {:induction false} SparedOf<T>(q: seq<T>, stopped: seq<T>, x: T)
    ensures x in Spared(q, stopped) <==> x in q && x !in stopped
    ensures Distinct(q) ==> Distinct(Spared(q, stopped))
  {
    if q != [] {
      SparedOf(q[1..], stopped, x);
      if Distinct(q) {
        assert forall i :: 0 <= i < |q[1..]| ==> q[1..][i] == q[i + 1];
        SparedWithin(q[1..], stopped);
        assert q[0] !in q[1..];
      }
    }
  }

  lemma {:induction false} SparedWithin<T>(q: seq<T>, stopped: seq<T>)
    ensures forall x :: x in Spared(q, stopped) ==> x in q
  {
    if q != [] { SparedWithin(q[1..], stopped); }
  }

  /** Every call but a handle's own that comes before its turn leaves it alone. */
  predicate NotStopped<T(==)>(calls: seq<T>, k: nat, stops: (nat, T) -> seq<T>, x: T, n: nat) {
    forall j :: 0 <= j < n && j < |calls| && calls[j] != x ==> x !in stops(k + j, calls[j])
  }

  predicate FirstAt<T(==)>(calls: seq<T>, x: T, n: nat) {
    n < |calls| && calls[n] == x && forall j :: 0 <= j < n ==> calls[j] != x
  }

  /** What `Survivors` unfolds to. */
  lemma Unfold<T>(q: seq<T>, k: nat, stops: (nat, T) -> seq<T>, x: T)
    requires Distinct(q) && q != []
    ensures var stopped := stops(k, q[0]);
      var rest := Spared(q[1..], stopped);
      && Survivors(q, k, stops) == [q[0]] + Survivors(rest, k + 1, stops)
      && Distinct(rest) && q[0] !in rest && (x in rest <==> x in q && x != q[0] && x !in stopped)
  {
    assert forall i :: 0 <= i < |q[1..]| ==> q[1..][i] == q[i + 1];
    SparedOf(q[1..], stops(k, q[0]), x);
    SparedOf(q[1..], stops(k, q[0]), q[0]);
    assert q[0] !in q[1..];
  }

  predicate StoppedAt<T(==)>(calls: seq<T>, k: nat, stops: (nat, T) -> seq<T>, x: T, j: int) {
    0 <= j < |calls| && x in stops(k + j, calls[j])
  }

  lemma {:induction false} SurvivorsWithin<T>(q: seq<T>, k: nat, stops: (nat, T) -> seq<T>, x: T)
    requires Distinct(q) && x in Survivors(q, k, stops)
    ensures x in q
    decreases |q|
  {
    if q != [] && x != q[0] {
      Unfold(q, k, stops, x);
      SurvivorsWithin(Spared(q[1..], stops(k, q[0])), k + 1, stops, x);
    }
  }

  lemma {:induction false} SurvivorsDistinct<T>(q: seq<T>, k: nat, stops: (nat, T) -> seq<T>)
    requires Distinct(q)
    ensures Distinct(Survivors(q, k, stops))
    decreases |q|
  {
    if q != [] {
      var rest := Spared(q[1..], stops(k, q[0]));
      Unfold(q, k, stops, q[0]);
      SurvivorsDistinct(rest, k + 1, stops);
      if q[0] in Survivors(rest, k + 1, stops) { SurvivorsWithin(rest, k + 1, stops, q[0]); }
    }
  }

  /** Each handle of the starting queue is called at most once, and if it is not called an earlier call has
      stopped it. */
  lemma {:induction false} CalledOnce<T>(q: seq<T>, k: nat, stops: (nat, T) -> seq<T>, x: T)
    requires Distinct(q)
    ensures Distinct(Survivors(q, k, stops))
    ensures x in Survivors(q, k, stops) ==> x in q
    ensures x in q && x !in Survivors(q, k, stops) ==> exists j :: StoppedAt(Survivors(q, k, stops), k, stops, x, j)
    decreases |q|
  {
    SurvivorsDistinct(q, k, stops);
    if q != [] {
      var rest := Spared(q[1..], stops(k, q[0]));
      var more, all := Survivors(rest, k + 1, stops), Survivors(q, k, stops);
      Unfold(q, k, stops, x);
      CalledOnce(rest, k + 1, stops, x);
      if x in q && x !in all {
        if x !in rest {
          assert StoppedAt(all, k, stops, x, 0);
        } else {
          var j :| StoppedAt(more, k + 1, stops, x, j);
          LaterStop(q[0], more, k, stops, x, j);
        }
      }
    }
  }

  lemma LaterStop<T>(h: T, more: seq<T>, k: nat, stops: (nat, T) -> seq<T>, x: T, j: int)
    requires StoppedAt(more, k + 1, stops, x, j)
    ensures StoppedAt([h] + more, k, stops, x, j + 1)
  {
    assert ([h] + more)[j + 1] == more[j];
  }

  /** If it is called, no call before its own has stopped it. */
  lemma {:induction false} CalledUnstopped<T>(q: seq<T>, k: nat, stops: (nat, T) -> seq<T>, x: T)
    requires Distinct(q)
    ensures forall n: nat :: FirstAt(Survivors(q, k, stops), x, n) ==>
              NotStopped(Survivors(q, k, stops), k, stops, x, n)
    decreases |q|
  {
    if q != [] {
      var rest := Spared(q[1..], stops(k, q[0]));
      var more, all := Survivors(rest, k + 1, stops), Survivors(q, k, stops);
      Unfold(q, k, stops, x);
      CalledUnstopped(rest, k + 1, stops, x);
      CalledOnce(rest, k + 1, stops, x);
      forall n: nat | FirstAt(all, x, n) ensures NotStopped(all, k, stops, x, n) {
        if n > 0 {
          assert all[n] == more[n - 1] && x in more;
          LaterTurn(q[0], more, k, stops, x, n);
        }
      }
    }
  }

  lemma LaterTurn<T>(h: T, more: seq<T>, k: nat, stops: (nat, T) -> seq<T>, x: T, n: nat)
    requires n > 0 && FirstAt([h] + more, x, n) && x !in stops(k, h)
    requires forall i: nat :: FirstAt(more, x, i) ==> NotStopped(more, k + 1, stops, x, i)
    ensures NotStopped([h] + more, k, stops, x, n)
  {
    var all := [h] + more;
    assert forall j :: 0 <= j < |more| ==> all[j + 1] == more[j];
    assert FirstAt(more, x, n - 1);
    forall j | 0 <= j < n && j < |all| && all[j] != x ensures x !in stops(k + j, all[j]) {
      if j > 0 { assert more[j - 1] == all[j] && x !in stops(k + 1 + (j - 1), more[j - 1]); }
    }
  }
}
