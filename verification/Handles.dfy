/** The opaque handles of the C bridge: two registries that number their entries from 1, and the
    one-shot promotion of an in-flight handshake to a session. */
module Handles {
  import opened Basics
  import opened ClientHandshakes

  // ---- Registries as values --------------------------------------------------------------------

  /** The counter is an unsigned 64-bit one and wraps. */
  datatype Reg<+T> = Reg(next: U64, live: map<U64, T>)

  function NextHandle<T>(r: Reg<T>): U64 {
    (r.next + 1) % TWO_64
  }

  function AddTo<T>(r: Reg<T>, v: T): Reg<T> {
    Reg(NextHandle(r), r.live[NextHandle(r) := v])
  }

  function RemoveFrom<T>(r: Reg<T>, h: U64): Reg<T> {
    r.(live := r.live - {h})
  }

  datatype Bridge<+S> = Bridge(pending: Reg<ClientHandshake>, sessions: Reg<S>)

  /** `Begin`, `Complete` and `Create` carry what the core produces on that call, if it succeeds and
      the caller's buffer holds it. */
  datatype Event<+S> =
    | Begin(started: Option<ClientHandshake>)
    | Complete(h: U64, made: Option<S>)
    | Cancel(h: U64)
    | Create(made: Option<S>)
    | Free(h: U64)

  function Step<S>(b: Bridge<S>, ev: Event<S>): Bridge<S> {
    match ev
    case Begin(None) => b
    case Begin(Some(hs)) => b.(pending := AddTo(b.pending, hs))
    case Complete(h, made) =>
      Bridge(RemoveFrom(b.pending, h),
             if h in b.pending.live && made.Some? then AddTo(b.sessions, made.value) else b.sessions)
    case Cancel(h) => b.(pending := RemoveFrom(b.pending, h))
    case Create(None) => b
    case Create(Some(s)) => b.(sessions := AddTo(b.sessions, s))
    case Free(h) => b.(sessions := RemoveFrom(b.sessions, h))
  }

  /** The handle a call returns, 0 when it fails or returns none. */
  function Returned<S>(b: Bridge<S>, ev: Event<S>): U64 {
    match ev
    case Begin(Some(_)) => NextHandle(b.pending)
    case Complete(h, Some(_)) => if h in b.pending.live then NextHandle(b.sessions) else 0
    case Create(Some(_)) => NextHandle(b.sessions)
    case _ => 0
  }

  function Exec<S>(evs: seq<Event<S>>): Bridge<S> {
    if evs == [] then Bridge(Reg(0, map[]), Reg(0, map[]))
    else Step(Exec(evs[..|evs| - 1]), evs[|evs| - 1])
  }

  /** What call `i` of the run returned. */
  function ReturnedAt<S>(evs: seq<Event<S>>, i: nat): U64
    requires i < |evs|
  {
    Returned(Exec(evs[..i]), evs[i])
  }

  // ---- Budgets ---------------------------------------------------------------------------------

  predicate AddsPending<S>(ev: Event<S>) {
    ev.Begin? && ev.started.Some?
  }

  predicate AddsSession<S>(b: Bridge<S>, ev: Event<S>) {
    || (ev.Create? && ev.made.Some?)
    || (ev.Complete? && ev.h in b.pending.live && ev.made.Some?)
  }

  /** How many handshakes the calls register; calls that fail, cancel or free spend nothing. */
  function Begins<S>(evs: seq<Event<S>>): nat {
    if evs == [] then 0 else Begins(evs[..|evs| - 1]) + if AddsPending(evs[|evs| - 1]) then 1 else 0
  }

  /** How many sessions they register. */
  function Makes<S>(evs: seq<Event<S>>): nat {
    if evs == [] then 0
    else
      var front := evs[..|evs| - 1];
      Makes(front) + if AddsSession(Exec(front), evs[|evs| - 1]) then 1 else 0
  }

  ghost predicate InBudget<S>(evs: seq<Event<S>>) {
    Begins(evs) < TWO_64 && Makes(evs) < TWO_64
  }

  lemma {:induction false} PrefixInBudget<S>(evs: seq<Event<S>>, i: nat)
    requires i <= |evs|
    ensures Begins(evs[..i]) <= Begins(evs) && Makes(evs[..i]) <= Makes(evs)
  {
    if i == |evs| {
      assert evs[..i] == evs;
    } else {
      assert evs[..|evs| - 1][..i] == evs[..i];
      PrefixInBudget(evs[..|evs| - 1], i);
    }
  }

  // ---- Every run -------------------------------------------------------------------------------

  /** Only handles the counter has passed are live. */
  ghost predicate Counted<T>(r: Reg<T>) {
    forall h | h in r.live :: 1 <= h <= r.next
  }

  /** `r'` comes from `r` by numbering upwards: what `r` has numbered and dropped stays dropped. */
  ghost predicate Grew<T>(r: Reg<T>, r': Reg<T>) {
    && r.next <= r'.next
    && forall h: U64 | h <= r.next && h in r'.live :: h in r.live && r'.live[h] == r.live[h]
  }

  lemma AddCounts<T>(r: Reg<T>, v: T)
    requires Counted(r) && r.next + 1 < TWO_64
    ensures Counted(AddTo(r, v)) && Grew(r, AddTo(r, v)) && AddTo(r, v).next == r.next + 1 == NextHandle(r)
  {
  }

  lemma StepCounts<S>(b: Bridge<S>, ev: Event<S>)
    requires Counted(b.pending) && Counted(b.sessions)
    requires AddsPending(ev) ==> b.pending.next + 1 < TWO_64
    requires AddsSession(b, ev) ==> b.sessions.next + 1 < TWO_64
    ensures var b' := Step(b, ev);
            && Counted(b'.pending) && Counted(b'.sessions) && Grew(b.pending, b'.pending) && Grew(b.sessions, b'.sessions)
            && b'.pending.next == b.pending.next + (if AddsPending(ev) then 1 else 0)
            && b'.sessions.next == b.sessions.next + (if AddsSession(b, ev) then 1 else 0)
  {
    match ev
    case Begin(Some(hs)) => AddCounts(b.pending, hs);
    case Complete(h, Some(s)) => if h in b.pending.live { AddCounts(b.sessions, s); }
    case Create(Some(s)) => AddCounts(b.sessions, s);
    case _ =>
  }

  /** Within budget the counters are the numbers of registrations. */
  lemma {:induction false} ExecCounts<S>(evs: seq<Event<S>>)
    requires InBudget(evs)
    ensures var b := Exec(evs);
            Counted(b.pending) && Counted(b.sessions) && b.pending.next == Begins(evs) && b.sessions.next == Makes(evs)
  {
    if evs != [] {
      hide Counted, Step, Grew, AddsPending, AddsSession;
      ExecCounts(evs[..|evs| - 1]);
      StepCounts(Exec(evs[..|evs| - 1]), evs[|evs| - 1]);
    } else {
    }
  }

  lemma GrewOn<T>(r: Reg<T>, r': Reg<T>, r'': Reg<T>)
    requires Grew(r, r') && Grew(r', r'')
    ensures Grew(r, r'')
  {
  }

  lemma {:induction false} RunGrows<S>(evs: seq<Event<S>>, i: nat, j: nat)
    requires i <= j <= |evs| && InBudget(evs)
    ensures Grew(Exec(evs[..i]).pending, Exec(evs[..j]).pending)
    ensures Grew(Exec(evs[..i]).sessions, Exec(evs[..j]).sessions)
    decreases j
  {
    if i < j {
      assert evs[..j][..j - 1] == evs[..j - 1];
      var a, b := Exec(evs[..i]), Exec(evs[..j - 1]);
      PrefixInBudget(evs, j - 1);
      PrefixInBudget(evs, j);
      ExecCounts(evs[..j - 1]);
      StepCounts(b, evs[j - 1]);
      RunGrows(evs, i, j - 1);
      hide Grew, Counted, Step;
      GrewOn(a.pending, b.pending, Exec(evs[..j]).pending);
      GrewOn(a.sessions, b.sessions, Exec(evs[..j]).sessions);
    }
  }

  /** A handle that was numbered and is no longer live is dead for the rest of the run. */
  lemma DeadForGood<S>(evs: seq<Event<S>>, i: nat, j: nat, h: U64)
    requires i <= j <= |evs| && InBudget(evs)
    ensures var a, b := Exec(evs[..i]), Exec(evs[..j]);
            && (h <= a.pending.next && h !in a.pending.live ==> h !in b.pending.live)
            && (h <= a.sessions.next && h !in a.sessions.live ==> h !in b.sessions.live)
  {
    RunGrows(evs, i, j);
  }

  /** The state after call `i`, and the handle that call returned. */
  lemma CallNumbers<S>(evs: seq<Event<S>>, i: nat)
    requires i < |evs| && InBudget(evs) && ReturnedAt(evs, i) != 0
    ensures var a, b := Exec(evs[..i]), Exec(evs[..i + 1]);
            if evs[i].Begin? then ReturnedAt(evs, i) == a.pending.next + 1 == b.pending.next
            else ReturnedAt(evs, i) == a.sessions.next + 1 == b.sessions.next
  {
    assert evs[..i + 1][..i] == evs[..i];
    PrefixInBudget(evs, i);
    PrefixInBudget(evs, i + 1);
    ExecCounts(evs[..i]);
    ExecCounts(evs[..i + 1]);
  }

  /** No handle is returned twice: of two calls that number in the same registry, the later returns a
      different handle. */
  lemma HandlesNeverRepeat<S>(evs: seq<Event<S>>, i: nat, j: nat)
    requires i < j < |evs| && InBudget(evs) && evs[i].Begin? == evs[j].Begin?
    ensures ReturnedAt(evs, i) != 0 ==> ReturnedAt(evs, i) != ReturnedAt(evs, j)
  {
    if ReturnedAt(evs, i) != 0 && ReturnedAt(evs, j) != 0 {
      CallNumbers(evs, i);
      CallNumbers(evs, j);
      RunGrows(evs, i + 1, j);
    }
  }

  ghost predicate Consumes<S>(ev: Event<S>, h: U64) {
    ev == Cancel(h) || (ev.Complete? && ev.h == h)
  }

  /** Completing or cancelling an issued handshake handle consumes it, whatever came of the call: no
      later call completes it. */
  lemma HandshakeConsumed<S>(evs: seq<Event<S>>, i: nat, j: nat, h: U64)
    requires i < j < |evs| && InBudget(evs) && h <= Exec(evs[..i]).pending.next
    requires Consumes(evs[i], h) && evs[j].Complete? && evs[j].h == h
    ensures ReturnedAt(evs, j) == 0
  {
    assert evs[..i + 1][..i] == evs[..i];
    DeadForGood(evs, i + 1, j, h);
  }

  /** Within budget, with a session to spare. */
  ghost predicate HasRoom<S>(evs: seq<Event<S>>) {
    Begins(evs) < TWO_64 && Makes(evs) + 1 < TWO_64
  }

  /** After the calls `evs`, no continuation in which a session could still be registered completes `h`. */
  ghost predicate Final<S(!new)>(evs: seq<Event<S>>, h: U64) {
    forall more: seq<Event<S>>, s: S | HasRoom(evs + more) ::
      Returned(Exec(evs + more), Complete(h, Some(s))) == 0
  }

  /** The same number of begun handshakes in a row. */
  function Repeat<S>(hs: ClientHandshake, n: nat): (evs: seq<Event<S>>)
    ensures |evs| == n && forall i | 0 <= i < n :: evs[i] == Begin(Some(hs))
  {
    seq(n, _ => Begin(Some(hs)))
  }

  lemma {:induction false} RepeatBegins<S>(evs: seq<Event<S>>, hs: ClientHandshake, n: nat)
    requires InBudget(evs) && Begins(evs) + n < TWO_64
    ensures var all := evs + Repeat(hs, n);
            && Begins(all) == Begins(evs) + n && Makes(all) == Makes(evs)
            && (n > 0 ==> Exec(all).pending.next in Exec(all).pending.live)
  {
    var all := evs + Repeat(hs, n);
    if n == 0 {
      assert all == evs;
    } else {
      RepeatBegins(evs, hs, n - 1);
      assert Repeat<S>(hs, n)[..n - 1] == Repeat(hs, n - 1);
      assert all[..|all| - 1] == evs + Repeat(hs, n - 1);
    }
  }

  lemma LiveCompletes<S>(b: Bridge<S>, h: U64, s: S)
    requires h in b.pending.live && b.sessions.next + 1 < TWO_64
    ensures Returned(b, Complete(h, Some(s))) != 0
  {
  }

  /** A handle beyond the counter can still be issued, and then completed. */
  lemma UnissuedNotFinal<S(!new)>(evs: seq<Event<S>>, h: U64, hs: ClientHandshake, s: S)
    requires HasRoom(evs) && h > Exec(evs).pending.next
    ensures !Final(evs, h)
  {
    hide Exec, Begins, Makes, Counted, Returned, Repeat;
    ExecCounts(evs);
    var n := h - Exec(evs).pending.next;
    RepeatBegins(evs, hs, n);
    var more := Repeat<S>(hs, n);
    ExecCounts(evs + more);
    LiveCompletes(Exec(evs + more), h, s);
    assert HasRoom(evs + more);
  }

  lemma IssuedIsFinal<S(!new)>(evs: seq<Event<S>>, i: nat, h: U64)
    requires i < |evs| && Consumes(evs[i], h) && h <= Exec(evs[..i]).pending.next
    ensures Final(evs, h)
  {
    forall more: seq<Event<S>>, s: S | HasRoom(evs + more)
      ensures Returned(Exec(evs + more), Complete(h, Some(s))) == 0
    {
      var all := evs + more;
      assert all[..i] == evs[..i] && all[..i + 1][..i] == evs[..i] && all[..|all|] == all;
      DeadForGood(all, i + 1, |all|, h);
    }
  }

  /** Cancelling or completing a handle is final exactly when the handle had been issued: a number the
      counter has not reached is not consumed, whatever the call was. */
  lemma FinalExactly<S(!new)>(evs: seq<Event<S>>, ev: Event<S>, h: U64, hs: ClientHandshake, s: S)
    requires HasRoom(evs + [ev]) && Consumes(ev, h)
    ensures Final(evs + [ev], h) <==> h <= Exec(evs).pending.next
  {
    var all := evs + [ev];
    assert all[..|evs|] == evs;
    if h <= Exec(evs).pending.next {
      IssuedIsFinal(all, |evs|, h);
    } else {
      UnissuedNotFinal(all, h, hs, s);
    }
  }

  /** So cancelling a handle before it is issued does nothing: it is issued and completed afterwards. */
  lemma EarlyCancelIgnored<S>(hs: ClientHandshake, s: S)
    ensures var evs := [Cancel(1), Begin(Some(hs)), Complete(1, Some(s))];
            ReturnedAt(evs, 1) == 1 && ReturnedAt(evs, 2) == 1
  {
    var evs: seq<Event<S>> := [Cancel(1), Begin(Some(hs)), Complete(1, Some(s))];
    assert evs[..1] == [Cancel(1)] && evs[..1][..0] == [];
    assert evs[..2][..1] == evs[..1];
    assert Exec(evs[..1]) == Step(Exec<S>([]), Cancel(1));
    assert Exec(evs[..2]) == Step(Exec(evs[..1]), Begin(Some(hs)));
  }

  /** Two calls that complete the same handle cannot both succeed. */
  lemma OneSessionPerHandshake<S>(evs: seq<Event<S>>, i: nat, j: nat)
    requires i < j < |evs| && InBudget(evs) && evs[i].Complete? && evs[j].Complete? && evs[i].h == evs[j].h
    ensures ReturnedAt(evs, i) == 0 || ReturnedAt(evs, j) == 0
  {
    if ReturnedAt(evs, i) != 0 {
      PrefixInBudget(evs, i);
      ExecCounts(evs[..i]);
      HandshakeConsumed(evs, i, j, evs[i].h);
    }
  }

  lemma StepResolves<S>(b: Bridge<S>, ev: Event<S>, h: U64)
    requires Counted(b.sessions) && (AddsSession(b, ev) ==> b.sessions.next + 1 < TWO_64)
    requires h in b.sessions.live && ev != Free(h)
    ensures var r := Step(b, ev).sessions; h in r.live && r.live[h] == b.sessions.live[h]
  {
  }

  /** Until it is freed, a session handle names the session it was returned for. */
  lemma {:induction false} HandleResolves<S>(evs: seq<Event<S>>, i: nat, j: nat, s: S)
    requires i < j <= |evs| && InBudget(evs) && ReturnedAt(evs, i) != 0
    requires evs[i] == Create(Some(s)) || (evs[i].Complete? && evs[i].made == Some(s))
    requires forall k | i < k < j :: evs[k] != Free(ReturnedAt(evs, i))
    ensures var b := Exec(evs[..j]).sessions; ReturnedAt(evs, i) in b.live && b.live[ReturnedAt(evs, i)] == s
    decreases j
  {
    assert evs[..j][..j - 1] == evs[..j - 1];
    PrefixInBudget(evs, j - 1);
    PrefixInBudget(evs, j);
    ExecCounts(evs[..j - 1]);
    ExecCounts(evs[..j]);
    if i + 1 < j {
      HandleResolves(evs, i, j - 1, s);
      StepResolves(Exec(evs[..j - 1]), evs[j - 1], ReturnedAt(evs, i));
    }
  }
}
