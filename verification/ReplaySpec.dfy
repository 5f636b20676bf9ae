/** What an anti-replay window is for, without any bitmap: a specification that remembers every
    number it ever accepted, and the reading of its decisions off the raw arrival history. */
module ReplaySpec {

  datatype Decision = Invalid | FirstCopy | Duplicate | Stale

  /** `accepted` is unbounded: nothing is ever forgotten. `last == 0` means nothing arrived yet. */
  datatype Window = Window(width: nat, last: nat, accepted: set<int>)

  function Fresh(width: nat): Window {
    Window(width, 0, {})
  }

  function Decide(w: Window, n: nat): Decision {
    if n == 0 then Invalid
    else if n > w.last then FirstCopy
    else if w.last - n >= w.width then Stale
    else if n in w.accepted then Duplicate
    else FirstCopy
  }

  function Observe(w: Window, n: nat): Window {
    if Decide(w, n) == FirstCopy
    then Window(w.width, if n > w.last then n else w.last, w.accepted + {n})
    else w
  }

  /** The window after the arrivals `ns`, oldest first. */
  function Run(width: nat, ns: seq<nat>): Window {
    if ns == [] then Fresh(width)
    else Observe(Run(width, ns[..|ns| - 1]), ns[|ns| - 1])
  }

  /** The decision taken on arrival `i` of `ns`. */
  function DecisionAt(width: nat, ns: seq<nat>, i: nat): Decision
    requires i < |ns|
  {
    Decide(Run(width, ns[..i]), ns[i])
  }

  function Highest(ns: seq<nat>): nat {
    if ns == [] then 0
    else var h := Highest(ns[..|ns| - 1]); if ns[|ns| - 1] > h then ns[|ns| - 1] else h
  }

  /** The same decision read off the raw arrivals: no accepted set, no window state. */
  function FromHistory(width: nat, ns: seq<nat>, n: nat): Decision {
    if n == 0 then Invalid
    else if Highest(ns) >= n + width then Stale
    else if n in ns then Duplicate
    else FirstCopy
  }

  lemma {:induction false} HighestBounds(ns: seq<nat>, i: nat)
    requires i < |ns|
    ensures ns[i] <= Highest(ns)
  {
    if i < |ns| - 1 {
      HighestBounds(ns[..|ns| - 1], i);
    }
  }

  lemma {:induction false} HighestGrows(ns: seq<nat>, i: nat)
    requires i <= |ns|
    ensures Highest(ns[..i]) <= Highest(ns)
  {
    if i == |ns| {
      assert ns[..i] == ns;
    } else {
      var front := ns[..|ns| - 1];
      assert ns[..i] == front[..i];
      HighestGrows(front, i);
    }
  }

  /** The state reached by any history: the last number is the maximum, and the accepted numbers
      are positive arrivals that include every arrival still inside the window. */
  lemma {:induction false} RunShape(width: nat, ns: seq<nat>)
    requires width > 0
    ensures Run(width, ns).width == width
    ensures Run(width, ns).last == Highest(ns)
    ensures forall n | n in Run(width, ns).accepted :: n in ns && 0 < n <= Highest(ns)
    ensures forall n | n in ns && n > 0 && Highest(ns) < n + width :: n in Run(width, ns).accepted
  {
    if ns != [] {
      var front := ns[..|ns| - 1];
      RunShape(width, front);
      assert ns == front + [ns[|ns| - 1]];
    }
  }

  /** For every history, remembering everything decides exactly as the raw arrivals do. */
  lemma HistoryDecides(width: nat, ns: seq<nat>, n: nat)
    requires width > 0
    ensures Decide(Run(width, ns), n) == FromHistory(width, ns, n)
  {
    RunShape(width, ns);
    if n in ns {
      var i :| 0 <= i < |ns| && ns[i] == n;
      HighestBounds(ns, i);
    }
  }

  /** At most once: over a whole run, no number is reported as a first copy twice. */
  lemma FirstCopyAtMostOnce(width: nat, ns: seq<nat>, i: nat, j: nat)
    requires width > 0 && i < j < |ns| && ns[i] == ns[j]
    ensures DecisionAt(width, ns, j) != FirstCopy
  {
    HistoryDecides(width, ns[..j], ns[j]);
    assert ns[..j][i] == ns[j];
  }

  /** A copy is accepted exactly when it is the first arrival of its number and has not been
      overtaken by `width` or more. */
  lemma FirstCopyExactly(width: nat, ns: seq<nat>, j: nat)
    requires width > 0 && j < |ns|
    ensures DecisionAt(width, ns, j) == FirstCopy
       <==> ns[j] > 0 && ns[j] !in ns[..j] && Highest(ns[..j]) < ns[j] + width
  {
    HistoryDecides(width, ns[..j], ns[j]);
  }

  /** A number still inside the window has arrived exactly when one of its arrivals was accepted. */
  lemma ArrivedIffAccepted(width: nat, ns: seq<nat>, n: nat)
    requires width > 0 && n > 0 && Highest(ns) < n + width
    ensures n in ns <==> exists i :: 0 <= i < |ns| && ns[i] == n && DecisionAt(width, ns, i) == FirstCopy
  {
    if n in ns {
      var at := FirstIndex(ns, n);
      HighestGrows(ns, at);
      FirstCopyExactly(width, ns, at);
      assert ns[at] == n && DecisionAt(width, ns, at) == FirstCopy;
    }
  }

  /** No arrival is overtaken by `width` or more before it arrives. */
  ghost predicate BoundedSkew(width: nat, ns: seq<nat>) {
    forall j | 0 <= j < |ns| :: Highest(ns[..j]) < ns[j] + width
  }

  /** Exactly once: under bounded skew every number that arrives at all is accepted at exactly
      one of its arrivals, however many copies there are and whichever of them were lost. */
  lemma ExactlyOnce(width: nat, ns: seq<nat>, n: nat) returns (at: nat)
    requires width > 0 && BoundedSkew(width, ns)
    requires n in ns && n > 0
    ensures at < |ns| && ns[at] == n && DecisionAt(width, ns, at) == FirstCopy
    ensures forall j | 0 <= j < |ns| && ns[j] == n && j != at :: DecisionAt(width, ns, j) == Duplicate
  {
    at := FirstIndex(ns, n);
    FirstCopyExactly(width, ns, at);
    forall j | 0 <= j < |ns| && ns[j] == n && j != at
      ensures DecisionAt(width, ns, j) == Duplicate
    {
      HistoryDecides(width, ns[..j], n);
      assert ns[..j][at] == n;
    }
  }

  lemma {:induction false} FirstIndex(ns: seq<nat>, n: nat) returns (at: nat)
    requires n in ns
    ensures at < |ns| && ns[at] == n
    ensures forall k | 0 <= k < at :: ns[k] != n
  {
    var front := ns[..|ns| - 1];
    assert ns == front + [ns[|ns| - 1]];
    if n in front {
      at := FirstIndex(front, n);
    } else {
      at := |ns| - 1;
    }
  }
}
