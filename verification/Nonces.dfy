/** The server's replay guard: a 64-bit mask behind the largest nonce accepted so far. */

/** Unsigned 64-bit words, bit by bit, least significant bit first. */
module Words {
  type Word = w: seq<bool> | |w| == 64 witness seq(64, i => false)

  const ZERO: Word := seq(64, i => false)

  function OneBit(j: nat): Word {
    seq(64, i => i == j)
  }

  function Or(a: Word, b: Word): Word {
    seq(64, i requires 0 <= i < 64 => a[i] || b[i])
  }

  function And(a: Word, b: Word): Word {
    seq(64, i requires 0 <= i < 64 => a[i] && b[i])
  }

  /** Shifts zeros in at the low end; what passes the high end is lost. */
  function ShiftLeft(w: Word, s: nat): Word {
    seq(64, i requires 0 <= i < 64 => s <= i && w[i - s])
  }

  ghost function Bits(w: Word): set<nat> {
    set i: nat | i < 64 && w[i]
  }

  lemma BitTest(w: Word, j: nat)
    requires j < 64
    ensures And(w, OneBit(j)) != ZERO <==> j in Bits(w)
  {
    assert And(w, OneBit(j))[j] == w[j] && !ZERO[j];
    if !w[j] {
      assert And(w, OneBit(j)) == ZERO;
    }
  }
}

module Nonces {
  import opened Bytes
  import opened Words

  const WINDOW: int := 64

  /** The reference model: the largest accepted nonce and the remembered ones among the 64 below it. */
  datatype Window = Window(last: nat, seen: set<nat>)

  const START := Window(0, {})

  predicate Accepts(w: Window, n: nat) {
    n != 0 && (n > w.last || (n < w.last && w.last - n <= WINDOW && n !in w.seen))
  }

  /** What is remembered after `n` is presented. An advance of 64 or more forgets everything. */
  function Present(w: Window, n: nat): Window {
    if !Accepts(w, n) then w
    else if n < w.last then Window(w.last, w.seen + {n})
    else if n - w.last >= WINDOW then Window(n, {})
    else Window(n, set k | k in w.seen + {w.last} && n - k <= WINDOW)
  }

  function Behind(last: nat, k: nat): int {
    last - k - 1
  }

  /** The nonces a mask stands for: bit i is the nonce `last - 1 - i`. */
  ghost function Marked(last: nat, bits: set<nat>): set<nat> {
    set k: nat | k < last && Behind(last, k) in bits
  }

  class NonceValidator {
    var lastNonce: U64
    var window: Word

    ghost function Abstract(): Window
      reads this
    {
      Window(lastNonce, Marked(lastNonce, Bits(window)))
    }

    constructor ()
      ensures Abstract() == START
    {
      lastNonce := 0;
      window := ZERO;
    }

    method Check(nonce: U64) returns (accepted: bool)
      modifies this
      ensures accepted == Accepts(old(Abstract()), nonce)
      ensures Abstract() == Present(old(Abstract()), nonce)
    {
      if nonce == 0 {
        return false;
      }
      if nonce > lastNonce {
        var shift := nonce - lastNonce;
        if shift >= 64 {
          window := ZERO;
        } else {
          AdvanceMarks(lastNonce, window, nonce);
          window := ShiftLeft(window, shift);
          window := Or(window, OneBit(shift - 1));
        }
        lastNonce := nonce;
        return true;
      } else {
        var diff := lastNonce - nonce;
        if diff == 0 {
          return false;
        } else if diff > 64 {
          return false;
        } else {
          var bit := diff - 1;
          BitTest(window, bit);
          if And(window, OneBit(bit)) != ZERO {
            return false;
          } else {
            MarkOne(lastNonce, window, nonce);
            window := Or(window, OneBit(bit));
            return true;
          }
        }
      }
    }
  }

  lemma MarkOne(last: nat, w: Word, n: nat)
    requires n < last && last - n <= WINDOW
    ensures Marked(last, Bits(Or(w, OneBit(last - n - 1)))) == Marked(last, Bits(w)) + {n}
  {}

  /** Shifting the mask and marking the old `last` keeps exactly the nonces still within 64 of the new one. */
  lemma AdvanceMarks(last: nat, w: Word, n: nat)
    requires last < n && n - last < WINDOW
    ensures Marked(n, Bits(Or(ShiftLeft(w, n - last), OneBit(n - last - 1))))
            == set k | k in Marked(last, Bits(w)) + {last} && n - k <= WINDOW
  {
    var shifted := Or(ShiftLeft(w, n - last), OneBit(n - last - 1));
    forall k: nat | k < n
      ensures Behind(n, k) in Bits(shifted) <==> k in Marked(last, Bits(w)) + {last} && n - k <= WINDOW
    {
      if n - k <= WINDOW {
        assert shifted[n - k - 1] == ((k < last && w[last - k - 1]) || k == last);
      }
    }
  }

  /** The window after a client's nonces were presented in this order. */
  function After(ns: seq<nat>): Window {
    if ns == [] then START else Present(After(ns[..|ns| - 1]), ns[|ns| - 1])
  }

  predicate AcceptedAt(ns: seq<nat>, i: nat) {
    i < |ns| && Accepts(After(ns[..i]), ns[i])
  }

  ghost predicate AcceptedBefore(ns: seq<nat>, i: nat, n: nat) {
    exists j :: 0 <= j < i && AcceptedAt(ns, j) && ns[j] == n
  }

  lemma AfterPrefix(ns: seq<nat>, i: nat)
    requires i < |ns|
    ensures After(ns[..i + 1]) == Present(After(ns[..i]), ns[i])
  {
    assert ns[..i + 1][..i] == ns[..i];
  }

  /** The largest accepted nonce never decreases, and without an advance nothing is forgotten. */
  lemma {:induction false} Monotone(ns: seq<nat>, i: nat, j: nat)
    requires i <= j <= |ns|
    ensures After(ns[..i]).last <= After(ns[..j]).last
    ensures After(ns[..i]).last == After(ns[..j]).last ==> After(ns[..i]).seen <= After(ns[..j]).seen
    decreases j
  {
    if i < j {
      Monotone(ns, i, j - 1);
      AfterPrefix(ns, j - 1);
    }
  }

  /** Nothing is remembered that was not accepted. */
  lemma {:induction false} RememberedWasAccepted(ns: seq<nat>, i: nat, k: nat)
    requires i <= |ns|
    requires k != 0 && (k == After(ns[..i]).last || k in After(ns[..i]).seen)
    ensures AcceptedBefore(ns, i, k)
  {
    if i > 0 {
      AfterPrefix(ns, i - 1);
      var w := After(ns[..i - 1]);
      if k == ns[i - 1] && Accepts(w, k) {
        assert AcceptedAt(ns, i - 1);
      } else {
        RememberedWasAccepted(ns, i - 1, k);
      }
    }
  }

  /** The one way to be forgotten inside the window: an advance straight from n to n + 64. */
  ghost predicate Skipped(ns: seq<nat>, i: nat, n: nat)
    requires i <= |ns|
  {
    exists j :: 0 <= j < i && After(ns[..j]).last == n && ns[j] == n + WINDOW
  }

  /** A nonce that cannot be accepted again, because it is remembered or too old. */
  predicate Barred(w: Window, n: nat) {
    n == w.last || n in w.seen || w.last - n > WINDOW
  }

  predicate Consistent(w: Window) {
    forall k :: k in w.seen ==> k < w.last
  }

  lemma {:induction false} AlwaysConsistent(ns: seq<nat>)
    ensures Consistent(After(ns))
  {
    if ns != [] {
      var w := After(ns[..|ns| - 1]);
      AlwaysConsistent(ns[..|ns| - 1]);
      assert Consistent(Present(w, ns[|ns| - 1]));
    }
  }

  lemma PresentBars(w: Window, x: nat, n: nat)
    requires Consistent(w)
    requires Barred(w, n) || (n == x && Accepts(w, x))
    ensures Barred(Present(w, x), n) || (w.last == n && x == n + WINDOW && Present(w, x).last == x)
  {}

  lemma SkippedMore(ns: seq<nat>, i: nat, n: nat)
    requires 0 < i <= |ns|
    ensures Skipped(ns, i - 1, n) || (After(ns[..i - 1]).last == n && ns[i - 1] == n + WINDOW) ==> Skipped(ns, i, n)
  {}

  lemma AcceptedBeforeOrNow(ns: seq<nat>, i: nat, n: nat)
    requires 0 < i <= |ns| && AcceptedBefore(ns, i, n)
    ensures AcceptedBefore(ns, i - 1, n) || (ns[i - 1] == n && Accepts(After(ns[..i - 1]), n))
  {
    var j :| 0 <= j < i && AcceptedAt(ns, j) && ns[j] == n;
  }

  /** A nonce passed by 64 at once stays as it is, or is barred by what comes. */
  lemma PresentPassed(w: Window, x: nat, n: nat)
    requires w.last == n + WINDOW
    ensures var w' := Present(w, x); Barred(w', n) || w'.last == n + WINDOW
  {}

  lemma {:induction false} AcceptedIsKept(ns: seq<nat>, i: nat, n: nat)
    requires i <= |ns| && n != 0
    requires AcceptedBefore(ns, i, n)
    ensures var w := After(ns[..i]); Barred(w, n) || (w.last == n + WINDOW && Skipped(ns, i, n))
  {
    AfterPrefix(ns, i - 1);
    var w, x := After(ns[..i - 1]), ns[i - 1];
    AcceptedBeforeOrNow(ns, i, n);
    SkippedMore(ns, i, n);
    if AcceptedBefore(ns, i - 1, n) {
      AcceptedIsKept(ns, i - 1, n);
    }
    if Barred(w, n) || (n == x && Accepts(w, x)) {
      AlwaysConsistent(ns[..i - 1]);
      PresentBars(w, x, n);
    } else {
      PresentPassed(w, x, n);
    }
  }

  function Largest(ns: seq<nat>): nat {
    if ns == [] then 0 else
      var most := Largest(ns[..|ns| - 1]);
      if ns[|ns| - 1] > most then ns[|ns| - 1] else most
  }

  lemma {:induction false} LastIsLargest(ns: seq<nat>)
    ensures After(ns).last == Largest(ns)
  {
    if ns != [] {
      LastIsLargest(ns[..|ns| - 1]);
    }
  }

  /** At k the window went straight from n to n + 64. */
  predicate SkippedAt(ns: seq<nat>, k: nat, n: nat) {
    k < |ns| && Largest(ns[..k]) == n && ns[k] == n + 64
  }

  /** n was presented, at j, and not skipped since. */
  ghost predicate RecalledFrom(ns: seq<nat>, i: nat, n: nat, j: nat) {
    j < i <= |ns| && ns[j] == n && forall k :: j < k < i ==> !SkippedAt(ns, k, n)
  }

  ghost predicate Recalled(ns: seq<nat>, i: nat, n: nat) {
    exists j :: RecalledFrom(ns, i, n, j)
  }

  lemma RecalledMore(ns: seq<nat>, i: nat, n: nat)
    requires 0 < i <= |ns|
    ensures Recalled(ns, i, n) <==> ns[i - 1] == n || (Recalled(ns, i - 1, n) && !SkippedAt(ns, i - 1, n))
  {
    if ns[i - 1] == n {
      assert RecalledFrom(ns, i, n, i - 1);
    } else if Recalled(ns, i - 1, n) && !SkippedAt(ns, i - 1, n) {
      var j :| RecalledFrom(ns, i - 1, n, j);
      assert RecalledFrom(ns, i, n, j);
    } else if Recalled(ns, i, n) {
      var j :| RecalledFrom(ns, i, n, j);
      assert RecalledFrom(ns, i - 1, n, j);
    }
  }

  predicate Remembers(w: Window, n: nat) {
    n == w.last || n in w.seen
  }

  lemma PresentRemembers(w: Window, x: nat, n: nat)
    requires Consistent(w) && n != 0 && Present(w, x).last <= n + 64
    ensures Remembers(Present(w, x), n) <==> x == n || (Remembers(w, n) && !(w.last == n && x == n + 64))
  {}

  /** Within reach, what the window remembers is what was presented and not skipped since. */
  lemma {:induction false} RememberedExactly(ns: seq<nat>, i: nat, n: nat)
    requires i <= |ns| && n != 0 && After(ns[..i]).last <= n + 64
    ensures Remembers(After(ns[..i]), n) <==> Recalled(ns, i, n)
  {
    if i > 0 {
      AfterPrefix(ns, i - 1);
      RememberedExactly(ns, i - 1, n);
      AlwaysConsistent(ns[..i - 1]);
      PresentRemembers(After(ns[..i - 1]), ns[i - 1], n);
      LastIsLargest(ns[..i - 1]);
      RecalledMore(ns, i, n);
    }
  }

  /** Which nonces are accepted, told from the nonces alone: those that are not zero and not more than 64 behind the
      largest presented before, if each earlier occurrence was forgotten by an advance from it by exactly 64. */
  lemma AcceptedExactly(ns: seq<nat>, i: nat)
    requires i < |ns|
    ensures AcceptedAt(ns, i)
       <==> && ns[i] != 0 && Largest(ns[..i]) <= ns[i] + 64
            && forall j :: 0 <= j < i && ns[j] == ns[i] ==>
                 exists k :: j < k < i && Largest(ns[..k]) == ns[i] && ns[k] == ns[i] + 64
  {
    var n := ns[i];
    LastIsLargest(ns[..i]);
    if n != 0 && After(ns[..i]).last <= n + 64 {
      RememberedExactly(ns, i, n);
      AlwaysConsistent(ns[..i]);
      assert AcceptedAt(ns, i) <==> !Recalled(ns, i, n);
      NotRecalled(ns, i, n);
    }
  }

  lemma NotRecalled(ns: seq<nat>, i: nat, n: nat)
    requires i <= |ns|
    ensures !Recalled(ns, i, n)
       <==> forall j :: 0 <= j < i && ns[j] == n ==> exists k :: j < k < i && Largest(ns[..k]) == n && ns[k] == n + 64
  {
    if !Recalled(ns, i, n) {
      forall j | 0 <= j < i && ns[j] == n
        ensures exists k :: j < k < i && Largest(ns[..k]) == n && ns[k] == n + 64
      {
        assert !RecalledFrom(ns, i, n, j);
        var k :| j < k < i && SkippedAt(ns, k, n);
      }
    } else {
      var j: nat :| RecalledFrom(ns, i, n, j);
      forall k | j < k < i ensures !(Largest(ns[..k]) == n && ns[k] == n + 64) {
        assert !SkippedAt(ns, k, n);
      }
    }
  }

  /** Every rejection has one of three causes. */
  lemma RejectionHasACause(ns: seq<nat>, i: nat)
    requires i < |ns| && !AcceptedAt(ns, i)
    ensures ns[i] == 0 || AcceptedBefore(ns, i, ns[i]) || After(ns[..i]).last - ns[i] > WINDOW
  {
    if ns[i] != 0 && After(ns[..i]).last - ns[i] <= WINDOW {
      RememberedWasAccepted(ns, i, ns[i]);
    }
  }

  /** Exactly when a nonce that was accepted before is accepted again. */
  lemma ReplayExactly(ns: seq<nat>, i: nat)
    requires i < |ns|
    ensures AcceptedAt(ns, i) && AcceptedBefore(ns, i, ns[i])
       <==> ns[i] != 0
            && After(ns[..i]).last == ns[i] + WINDOW
            && ns[i] !in After(ns[..i]).seen
            && Skipped(ns, i, ns[i])
  {
    var n := ns[i];
    if AcceptedAt(ns, i) && AcceptedBefore(ns, i, n) {
      AcceptedIsKept(ns, i, n);
      AlwaysConsistent(ns[..i]);
    }
    if n != 0 && Skipped(ns, i, n) {
      var j :| 0 <= j < i && After(ns[..j]).last == n && ns[j] == n + WINDOW;
      RememberedWasAccepted(ns, j, n);
    }
  }

  /** The exception is real: nonce 1, an advance of exactly 64, and nonce 1 once more. */
  lemma ReplayHappens()
    ensures var ns: seq<nat> := [1, 65, 1];
            AcceptedAt(ns, 0) && AcceptedAt(ns, 2) && AcceptedBefore(ns, 2, 1)
  {
    var ns: seq<nat> := [1, 65, 1];
    assert ns[..0] == [];
    AfterPrefix(ns, 0);
    AfterPrefix(ns, 1);
    assert AcceptedAt(ns, 0);
  }

  /** Nothing is accepted three times. */
  lemma AcceptedAtMostTwice(ns: seq<nat>, i: nat, j: nat, k: nat)
    requires i < j < k < |ns| && ns[i] == ns[j] == ns[k]
    ensures !(AcceptedAt(ns, i) && AcceptedAt(ns, j) && AcceptedAt(ns, k))
  {
    if AcceptedAt(ns, i) && AcceptedAt(ns, j) && AcceptedAt(ns, k) {
      assert AcceptedBefore(ns, j, ns[j]);
      assert AcceptedBefore(ns, k, ns[k]);
      ReplayExactly(ns, j);
      ReplayExactly(ns, k);
      AfterPrefix(ns, j);
      Monotone(ns, j + 1, k);
    }
  }

  /** A client that never skips exactly 63 nonces is never served twice for one nonce. */
  lemma NoReplayWithoutSkip(ns: seq<nat>, i: nat, j: nat)
    requires i < j < |ns| && ns[i] == ns[j]
    requires forall k :: 0 <= k < |ns| ==> ns[k] != After(ns[..k]).last + WINDOW
    ensures !(AcceptedAt(ns, i) && AcceptedAt(ns, j))
  {
    if AcceptedAt(ns, i) && AcceptedAt(ns, j) {
      assert AcceptedBefore(ns, j, ns[j]);
      ReplayExactly(ns, j);
    }
  }

  /** Distinct non-zero nonces that are never more than 64 behind an earlier delivery are all accepted. */
  lemma ReorderingTolerated(ns: seq<nat>, i: nat)
    requires forall k :: 0 <= k < |ns| ==> ns[k] != 0
    requires forall j, k :: 0 <= j < k < |ns| ==> ns[j] != ns[k] && ns[j] - ns[k] <= WINDOW
    requires i < |ns|
    ensures AcceptedAt(ns, i)
  {
    if !AcceptedAt(ns, i) {
      RejectionHasACause(ns, i);
      var last := After(ns[..i]).last;
      if last != 0 {
        RememberedWasAccepted(ns, i, last);
      }
    }
  }
}
