/**
 The state every handler of the server shares (`src/app.rs`). Each lock is held for one step, so what a
 handler can see is decided by how the steps of concurrent publishes and their peers interleave.
 */
module ServerState {
  import opened Basics
  import opened Text

  /** What the locks and the flag guard. */
  datatype Shared<W, R> = Shared(world: Option<W>, ready: bool, runtime: Option<R>, identities: seq<string>)

  predicate Known(identities: seq<string>, identity: string) {
    identity in identities
  }

  function Recorded(identities: seq<string>, identity: string): seq<string> {
    var trimmed := Trim(identity);
    if trimmed == "" || Known(identities, trimmed) then identities else identities + [trimmed]
  }

  class AppState<W, R> {
    var world: Option<W>
    var ready: bool
    var runtime: Option<R>
    var sessionIdentities: seq<string>
    var announcements: nat

    ghost function View(): Shared<W, R>
      reads this
    {
      Shared(world, ready, runtime, sessionIdentities)
    }

    constructor ()
      ensures View() == Shared(None, false, None, []) && announcements == 0
    {
      world, ready, runtime, sessionIdentities, announcements := None, false, None, [], 0;
    }

    method Install(w: W)
      modifies this
      ensures View() == old(View()).(world := Some(w)) && announcements == old(announcements)
    {
      world := Some(w);
    }

    method MarkReady()
      modifies this
      ensures View() == old(View()).(ready := true) && announcements == old(announcements)
    {
      ready := true;
    }

    method Announce()
      modifies this
      ensures View() == old(View()) && announcements == old(announcements) + 1
    {
      announcements := announcements + 1;
    }

    /** The runtime lock is taken twice, once to look and once to store; see `Step`. */
    method MaybeInitRuntime(build: W -> Option<R>, w: W)
      modifies this
      ensures View() == old(View()).(runtime := if old(runtime).Some? then old(runtime) else build(w))
      ensures announcements == old(announcements)
    {
      if runtime.Some? {
        return;
      }
      var built := build(w);
      if built.Some? {
        runtime := built;
      }
    }

    /** A publish nothing interrupts: the same steps, in the same order. */
    method Publish(build: W -> Option<R>, w: W)
      modifies this
      ensures world == Some(w) && ready && announcements == old(announcements) + 1
      ensures runtime == if old(runtime).Some? then old(runtime) else build(w)
      ensures sessionIdentities == old(sessionIdentities)
    {
      MaybeInitRuntime(build, w);
      Install(w);
      MarkReady();
      Announce();
    }

    method RecordSessionIdentity(identity: string)
      modifies this
      ensures View() == old(View()).(identities := Recorded(old(sessionIdentities), identity))
      ensures announcements == old(announcements)
    {
      var trimmed := Trim(identity);
      if trimmed == "" {
        return;
      }
      for i := 0 to |sessionIdentities|
        invariant View() == old(View()) && announcements == old(announcements)
        invariant trimmed !in sessionIdentities[..i]
      {
        if sessionIdentities[i] == trimmed {
          return;
        }
      }
      assert sessionIdentities[..|sessionIdentities|] == sessionIdentities;
      sessionIdentities := sessionIdentities + [trimmed];
    }
  }

  // ----- Interleavings -----

  /** How far a publisher has come: it looks at the runtime, may build one, installs, marks and announces. */
  datatype Pc = Start | Building | Built | Installed | Marked | Done

  datatype Step = Advance(publisher: nat) | Invalidate | Record(identity: string)

  /** What each publisher discovered, and what runtime a world's configuration yields, if any. */
  datatype Site<!W, !R> = Site(worldOf: nat -> W, build: W -> Option<R>)

  /** The shared state, with who installed and who announced so far, in order. */
  datatype State<W, R> = State(shared: Shared<W, R>, pcs: map<nat, Pc>, installs: seq<nat>, announced: seq<nat>)

  function Initial<W, R>(): State<W, R> {
    State(Shared(None, false, None, []), map[], [], [])
  }

  function PcOf<W, R>(s: State<W, R>, p: nat): Pc {
    if p in s.pcs then s.pcs[p] else Start
  }

  function Next<W, R>(site: Site<W, R>, s: State<W, R>, step: Step): State<W, R> {
    match step
    case Invalidate => s.(shared := s.shared.(runtime := None))
    case Record(identity) => s.(shared := s.shared.(identities := Recorded(s.shared.identities, identity)))
    case Advance(p) =>
      match PcOf(s, p)
      case Start => s.(pcs := s.pcs[p := if s.shared.runtime.Some? then Built else Building])
      case Building =>
        var built := site.build(site.worldOf(p));
        s.(pcs := s.pcs[p := Built], shared := if built.Some? then s.shared.(runtime := built) else s.shared)
      case Built =>
        s.(pcs := s.pcs[p := Installed],
           shared := s.shared.(world := Some(site.worldOf(p))),
           installs := s.installs + [p])
      case Installed => s.(pcs := s.pcs[p := Marked], shared := s.shared.(ready := true))
      case Marked => s.(pcs := s.pcs[p := Done], announced := s.announced + [p])
      case Done => s
  }

  function RunFrom<W, R>(site: Site<W, R>, s: State<W, R>, steps: seq<Step>): State<W, R>
    decreases |steps|
  {
    if steps == [] then s else RunFrom(site, Next(site, s, steps[0]), steps[1..])
  }

  lemma {:induction false} RunOne<W, R>(site: Site<W, R>, s: State<W, R>, step: Step, rest: seq<Step>)
    ensures RunFrom(site, s, [step] + rest) == RunFrom(site, Next(site, s, step), rest)
  {
    assert ([step] + rest)[1..] == rest;
  }

  /** A publisher whose steps nothing interrupts does what `Publish` does. */
  lemma {:induction false} PublishIsItsSteps<W, R>(site: Site<W, R>, s: State<W, R>, p: nat, n: nat)
    requires n >= 6 && PcOf(s, p) == Start
    ensures var t := RunFrom(site, s, seq(n, _ => Advance(p)));
            && t.shared.world == Some(site.worldOf(p)) && t.shared.ready
            && t.shared.runtime == (if s.shared.runtime.Some? then s.shared.runtime else site.build(site.worldOf(p)))
            && t.shared.identities == s.shared.identities
            && t.announced == s.announced + [p]
  {
    AdvanceAgain(site, s, p, n);
    var a := Next(site, s, Advance(p));
    AdvanceAgain(site, a, p, n - 1);
    var b := Next(site, a, Advance(p));
    AdvanceAgain(site, b, p, n - 2);
    var c := Next(site, b, Advance(p));
    AdvanceAgain(site, c, p, n - 3);
    var d := Next(site, c, Advance(p));
    AdvanceAgain(site, d, p, n - 4);
    var e := Next(site, d, Advance(p));
    AdvanceAgain(site, e, p, n - 5);
    AdvanceWhenDone(site, Next(site, e, Advance(p)), p, n - 6);
  }

  lemma AdvanceAgain<W, R>(site: Site<W, R>, s: State<W, R>, p: nat, n: nat)
    requires n > 0
    ensures RunFrom(site, s, seq(n, _ => Advance(p))) ==
            RunFrom(site, Next(site, s, Advance(p)), seq(n - 1, _ => Advance(p)))
  {
    assert seq(n, _ => Advance(p)) == [Advance(p)] + seq(n - 1, _ => Advance(p));
    RunOne(site, s, Advance(p), seq(n - 1, _ => Advance(p)));
  }

  lemma {:induction false} AdvanceWhenDone<W, R>(site: Site<W, R>, s: State<W, R>, p: nat, n: nat)
    requires PcOf(s, p) == Done
    ensures RunFrom(site, s, seq(n, _ => Advance(p))) == s
  {
    if n > 0 {
      AdvanceAgain(site, s, p, n);
      AdvanceWhenDone(site, s, p, n - 1);
    }
  }

  // ----- Invariants -----

  ghost predicate IdentitiesSound(identities: seq<string>) {
    && (forall i :: 0 <= i < |identities| ==> identities[i] != "" && Trim(identities[i]) == identities[i])
    && (forall i, j :: 0 <= i < j < |identities| ==> identities[i] != identities[j])
  }

  ghost predicate Inv<W, R>(site: Site<W, R>, s: State<W, R>) {
    && (s.shared.world == if s.installs == [] then None else Some(site.worldOf(s.installs[|s.installs| - 1])))
    && (forall p: nat :: p in s.installs <==> PcOf(s, p) in {Installed, Marked, Done})
    && (forall i, j :: 0 <= i < j < |s.installs| ==> s.installs[i] != s.installs[j])
    && (forall p: nat :: PcOf(s, p) in {Marked, Done} ==> s.shared.ready)
    && (forall p: nat :: p in s.announced <==> PcOf(s, p) == Done)
    && (s.shared.ready ==> s.installs != [])
    && IdentitiesSound(s.shared.identities)
  }

  /** What one state may become: nothing installed, announced or recorded is ever taken back. */
  ghost predicate Grows<W, R>(s: State<W, R>, t: State<W, R>) {
    && s.installs <= t.installs
    && s.announced <= t.announced
    && s.shared.identities <= t.shared.identities
    && (s.shared.ready ==> t.shared.ready)
    && (s.shared.world.Some? ==> t.shared.world.Some?)
  }

  lemma RecordedSound(identities: seq<string>, identity: string)
    requires IdentitiesSound(identities)
    ensures IdentitiesSound(Recorded(identities, identity)) && identities <= Recorded(identities, identity)
  {
    TrimIdempotent(identity);
  }

  lemma NextKeeps<W, R>(site: Site<W, R>, s: State<W, R>, step: Step)
    requires Inv(site, s)
    ensures Inv(site, Next(site, s, step)) && Grows(s, Next(site, s, step))
  {
    match step {
      case Invalidate => SamePcs(site, s, Next(site, s, step));
      case Record(identity) =>
        RecordedSound(s.shared.identities, identity);
        SamePcs(site, s, Next(site, s, step));
      case Advance(p) => AdvanceKeeps(site, s, p);
    }
  }

  lemma SamePcs<W, R>(site: Site<W, R>, s: State<W, R>, t: State<W, R>)
    requires Inv(site, s) && t.pcs == s.pcs && t.installs == s.installs && t.announced == s.announced
    requires t.shared.world == s.shared.world && t.shared.ready == s.shared.ready
    requires IdentitiesSound(t.shared.identities) && s.shared.identities <= t.shared.identities
    ensures Inv(site, t) && Grows(s, t)
  {
    assert forall p: nat :: PcOf(t, p) == PcOf(s, p);
  }

  /** One publisher moves from `before` to `after`; the others stay where they are. */
  lemma AdvanceKeeps<W, R>(site: Site<W, R>, s: State<W, R>, p: nat)
    requires Inv(site, s)
    ensures Inv(site, Next(site, s, Advance(p))) && Grows(s, Next(site, s, Advance(p)))
  {
    var t := Next(site, s, Advance(p));
    assert forall q: nat :: q != p ==> PcOf(t, q) == PcOf(s, q);
    match PcOf(s, p) {
      case Built =>
        assert t.installs[|t.installs| - 1] == p && p !in s.installs;
        assert forall q: nat :: q in t.installs <==> q in s.installs || q == p;
      case Marked =>
        assert forall q: nat :: q in t.announced <==> q in s.announced || q == p;
      case _ =>
    }
  }

  lemma {:induction false} RunKeeps<W, R>(site: Site<W, R>, s: State<W, R>, steps: seq<Step>)
    requires Inv(site, s)
    ensures Inv(site, RunFrom(site, s, steps)) && Grows(s, RunFrom(site, s, steps))
    decreases |steps|
  {
    if steps != [] {
      NextKeeps(site, s, steps[0]);
      RunKeeps(site, Next(site, s, steps[0]), steps[1..]);
    }
  }

  // ----- What handlers can rely on -----

  /** In every interleaving, once the server reads as ready every snapshot holds a world. */
  lemma ReadyMeansAWorld<W, R>(site: Site<W, R>, before: seq<Step>, later: seq<Step>)
    ensures var s := RunFrom(site, Initial(), before);
            s.shared.ready ==> RunFrom(site, s, later).shared.world.Some?
  {
    var s := RunFrom(site, Initial<W, R>(), before);
    RunKeeps(site, Initial<W, R>(), before);
    RunKeeps(site, s, later);
  }

  /** A world never disappears, and the identities recorded stay, in order, trimmed, non-blank and distinct. */
  lemma NothingIsTakenBack<W, R>(site: Site<W, R>, before: seq<Step>, later: seq<Step>)
    ensures var s := RunFrom(site, Initial<W, R>(), before);
            var t := RunFrom(site, s, later);
            && (s.shared.world.Some? ==> t.shared.world.Some?)
            && s.shared.identities <= t.shared.identities
            && IdentitiesSound(t.shared.identities)
  {
    RunKeeps(site, Initial<W, R>(), before);
    RunKeeps(site, RunFrom(site, Initial<W, R>(), before), later);
  }

  /** The world `t` holds was installed by `p`, at or before the moment of `s`, or by someone after `p`. */
  ghost predicate NotOlderThan<W, R>(site: Site<W, R>, s: State<W, R>, t: State<W, R>, p: nat) {
    exists at: nat :: at < |s.installs| && s.installs[at] == p && InstalledFrom(site, t, at)
  }

  ghost predicate InstalledFrom<W, R>(site: Site<W, R>, t: State<W, R>, at: nat) {
    exists now: nat :: at <= now < |t.installs| && t.shared.world == Some(site.worldOf(t.installs[now]))
  }

  /**
   A snapshot taken at any time after a publisher's change event was sent is the world that publisher
   installed or one installed after it, never an earlier one.
   */
  lemma SnapshotAfterEvent<W, R>(site: Site<W, R>, before: seq<Step>, later: seq<Step>, p: nat)
    requires p in RunFrom(site, Initial<W, R>(), before).announced
    ensures var s := RunFrom(site, Initial<W, R>(), before);
            var t := RunFrom(site, s, later);
            s.installs <= t.installs && NotOlderThan(site, s, t, p)
  {
    var s := RunFrom(site, Initial<W, R>(), before);
    var t := RunFrom(site, s, later);
    RunKeeps(site, Initial<W, R>(), before);
    RunKeeps(site, s, later);
    assert PcOf(s, p) == Done;
    var at: nat :| at < |s.installs| && s.installs[at] == p;
    assert t.shared.world == Some(site.worldOf(t.installs[|t.installs| - 1]));
    assert InstalledFrom(site, t, at);
  }

  // ----- The runtime is kept exactly when nobody is mid-build -----

  /** A publisher that found no runtime and has yet to store one. */
  ghost predicate WillStore<W, R>(site: Site<W, R>, s: State<W, R>, p: nat) {
    PcOf(s, p) == Building && site.build(site.worldOf(p)).Some?
  }

  ghost predicate NoInvalidate(steps: seq<Step>) {
    forall step <- steps :: !step.Invalidate?
  }

  ghost predicate OnlyStores<W, R>(site: Site<W, R>, s: State<W, R>, r: R) {
    forall p: nat :: WillStore(site, s, p) ==> site.build(site.worldOf(p)) == Some(r)
  }

  lemma {:induction false} RuntimeStays<W, R>(site: Site<W, R>, s: State<W, R>, steps: seq<Step>, r: R)
    requires s.shared.runtime == Some(r) && OnlyStores(site, s, r) && NoInvalidate(steps)
    ensures RunFrom(site, s, steps).shared.runtime == Some(r)
    decreases |steps|
  {
    if steps != [] {
      var t := Next(site, s, steps[0]);
      assert t.shared.runtime == Some(r);
      forall p: nat | WillStore(site, t, p) ensures site.build(site.worldOf(p)) == Some(r) {
        assert WillStore(site, s, p);
      }
      RuntimeStays(site, t, steps[1..], r);
    }
  }

  /**
   A runtime that is there outlives every later publish exactly when no publisher that looked before it
   was stored is still about to store another one.
   */
  lemma RuntimeKeptExactly<W, R>(site: Site<W, R>, s: State<W, R>)
    requires s.shared.runtime.Some?
    ensures (forall steps :: NoInvalidate(steps) ==> RunFrom(site, s, steps).shared.runtime == s.shared.runtime)
            <==> OnlyStores(site, s, s.shared.runtime.value)
  {
    var r := s.shared.runtime.value;
    if OnlyStores(site, s, r) {
      forall steps | NoInvalidate(steps) ensures RunFrom(site, s, steps).shared.runtime == s.shared.runtime {
        RuntimeStays(site, s, steps, r);
      }
    } else {
      var p: nat :| WillStore(site, s, p) && site.build(site.worldOf(p)) != Some(r);
      var steps := [Advance(p)];
      assert NoInvalidate(steps);
      assert RunFrom(site, s, steps) == RunFrom(site, Next(site, s, steps[0]), []) by { assert steps[1..] == []; }
      assert Next(site, s, steps[0]).shared.runtime == site.build(site.worldOf(p));
    }
  }

  /** Two first publishes can both find no runtime; the second to store replaces the first one's. */
  lemma RuntimeCanBeReplaced<W, R>(site: Site<W, R>, first: R, second: R)
    requires first != second
    requires site.build(site.worldOf(0)) == Some(first) && site.build(site.worldOf(1)) == Some(second)
    ensures var looked := [Advance(0), Advance(1)];
            var s := RunFrom(site, Initial<W, R>(), looked + [Advance(0)]);
            && s.shared.runtime == Some(first)
            && RunFrom(site, s, [Advance(1)]).shared.runtime == Some(second)
  {
    var a := Initial<W, R>();
    var b := Next(site, a, Advance(0));
    var c := Next(site, b, Advance(1));
    var d := Next(site, c, Advance(0));
    var e := Next(site, d, Advance(1));
    var run := [Advance(0), Advance(1)] + [Advance(0)];
    assert run[1..] == [Advance(1), Advance(0)] && run[1..][1..] == [Advance(0)] && run[1..][1..][1..] == [];
    assert RunFrom(site, c, [Advance(0)]) == d by { assert [Advance(0)][1..] == []; }
    assert RunFrom(site, b, run[1..]) == d;
    assert RunFrom(site, d, [Advance(1)]) == e by { assert [Advance(1)][1..] == []; }
  }
}
